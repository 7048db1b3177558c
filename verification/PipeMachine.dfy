/** Any number of readers, writers and closers of one pipe, interleaved at every
    lock operation and every byte. The pipe's spinlock and ptable.lock are part
    of the machine, as are sleep, wakeup and kill. */
module PipeMachine {

  import opened Blocks
  import opened PipeRing

  datatype Holder = Free | By(p: nat)

  /** The two channels: readers sleep on &nread, writers on &nwrite. */
  datatype Chan = Readers | Writers

  datatype Job =
    | NoJob
    | Writing(src: seq<byte>, i: nat)
    | Reading(n: nat, got: seq<byte>)
    | Closing(end: Chan)

  /** What follows a wakeup. */
  datatype Then = ToSleep | ToLeave(result: int)

  datatype Pc =
    | Idle
    | Enter            // wants the pipe lock, on entry or after a sleep
    | Loop             // pipe lock held: writer's loop, reader's wait test, closer
    | Copy             // pipe lock held: reader's copy loop
    | Wake(next: Then) // pipe lock held, wakeup wants ptable.lock
    | Scan(next: Then) // both held, wakeup1's scan
    | SleepTake        // pipe lock held, sleep wants ptable.lock
    | SleepDrop        // both held, about to release the pipe lock
    | SleepMark        // ptable.lock held, about to set SLEEPING
    | Switch           // SLEEPING set, ptable.lock still held
    | Off              // off the processor
    | Resume           // scheduled again, ptable.lock held
    | Leave(result: int) // about to release the pipe lock and return

  datatype Thread = Thread(pc: Pc, job: Job, sleeping: bool, killed: bool)

  /** sent lists every byte stored so far with its writer, taken every byte
      removed so far, and began what each process had sent when its current call
      of pipewrite began. */
  datatype State = State(ring: Ring, lock: Holder, ptable: Holder, threads: seq<Thread>,
                         sent: seq<(nat, byte)>, taken: seq<byte>, began: seq<seq<byte>>)

  predicate Init(s: State) {
    && s.ring.nread == 0 && s.ring.nwrite == 0 && s.ring.readopen && s.ring.writeopen
    && s.lock == Free && s.ptable == Free && s.sent == [] && s.taken == [] && |s.began| == |s.threads|
    && forall p :: 0 <= p < |s.threads| ==> s.threads[p].pc == Idle && s.threads[p].job == NoJob && !s.threads[p].sleeping
  }

  // ---- steps

  function With(s: State, p: nat, t: Thread): (r: State)
    requires p < |s.threads|
  {
    s.(threads := s.threads[p := t])
  }

  function At(s: State, p: nat, pc: Pc): (r: State)
    requires p < |s.threads|
  {
    With(s, p, s.threads[p].(pc := pc))
  }

  function SleepChan(j: Job): (c: Chan) {
    if j.Writing? then Writers else Readers
  }

  function WakeChan(j: Job): (c: Chan) {
    match j
    case Writing(_, _) => Readers
    case Closing(end) => if end.Writers? then Readers else Writers
    case _ => Writers
  }

  function Woken(t: Thread, c: Chan): (r: Thread) {
    if SleepChan(t.job) == c then t.(sleeping := false) else t
  }

  function Scanned(ts: seq<Thread>, c: Chan): (r: seq<Thread>)
    ensures |r| == |ts| && forall q :: 0 <= q < |ts| ==> r[q] == Woken(ts[q], c)
  {
    seq(|ts|, i requires 0 <= i < |ts| => Woken(ts[i], c))
  }

  /** pipewrite at the top of its loop. */
  function WriterStep(s: State, p: nat): (t: State)
    requires p < |s.threads| && s.threads[p].job.Writing?
  {
    var th := s.threads[p];
    var src, i := th.job.src, th.job.i;
    if i >= |src| then At(s, p, Wake(ToLeave(|src|)))
    else if Full(s.ring) then
      if !s.ring.readopen || th.killed then At(s, p, Leave(-1)) else At(s, p, Wake(ToSleep))
    else With(s, p, th.(job := Writing(src, i + 1))).(ring := Put(s.ring, src[i]), sent := s.sent + [(p, src[i])])
  }

  /** piperead at its wait test. */
  function ReaderTest(s: State, p: nat): (t: State)
    requires p < |s.threads|
  {
    if Empty(s.ring) && s.ring.writeopen then
      if s.threads[p].killed then At(s, p, Leave(-1)) else At(s, p, SleepTake)
    else At(s, p, Copy)
  }

  /** piperead's copy loop. */
  function ReaderCopy(s: State, p: nat): (t: State)
    requires p < |s.threads| && s.threads[p].job.Reading?
  {
    var th := s.threads[p];
    if |th.job.got| >= th.job.n || Empty(s.ring) then At(s, p, Wake(ToLeave(|th.job.got|)))
    else With(s, p, th.(job := Reading(th.job.n, th.job.got + [Head(s.ring)])))
         .(ring := Take(s.ring), taken := s.taken + [Head(s.ring)])
  }

  function CloserStep(s: State, p: nat): (t: State)
    requires p < |s.threads| && s.threads[p].job.Closing?
  {
    At(s, p, Wake(ToLeave(0))).(ring := if s.threads[p].job.end.Writers? then s.ring.(writeopen := false)
                                        else s.ring.(readopen := false))
  }

  /** The code between the lock operations. */
  predicate Body(s: State, p: nat, t: State)
    requires p < |s.threads|
  {
    if s.threads[p].pc.Copy? then s.threads[p].job.Reading? && t == ReaderCopy(s, p)
    else
      match s.threads[p].job
      case Writing(_, _) => t == WriterStep(s, p)
      case Reading(_, _) => t == ReaderTest(s, p)
      case Closing(_) => t == CloserStep(s, p)
      case NoJob => false
  }

  /** acquire, release, wakeup and sleep. */
  predicate Protocol(s: State, p: nat, t: State)
    requires p < |s.threads|
  {
    match s.threads[p].pc
    case Enter => s.lock == Free && t == At(s, p, Loop).(lock := By(p))
    case Wake(next) => s.ptable == Free && t == At(s, p, Scan(next)).(ptable := By(p))
    case Scan(next) =>
      t == At(s.(threads := Scanned(s.threads, WakeChan(s.threads[p].job))), p,
              if next.ToSleep? then SleepTake else Leave(next.result)).(ptable := Free)
    case SleepTake => s.ptable == Free && t == At(s, p, SleepDrop).(ptable := By(p))
    case SleepDrop => t == At(s, p, SleepMark).(lock := Free)
    case SleepMark => t == With(s, p, s.threads[p].(pc := Switch, sleeping := true))
    case Switch => t == At(s, p, Off).(ptable := Free)
    case Off => !s.threads[p].sleeping && s.ptable == Free && t == At(s, p, Resume).(ptable := By(p))
    case Resume => t == At(s, p, Enter).(ptable := Free)
    case Leave(_) => t == With(s, p, s.threads[p].(pc := Idle, job := NoJob)).(lock := Free)
    case _ => false
  }

  /** One step of process p. */
  predicate Step(s: State, p: nat, t: State)
    requires p < |s.threads|
  {
    if s.threads[p].pc.Loop? || s.threads[p].pc.Copy? then Body(s, p, t) else Protocol(s, p, t)
  }

  /** A call of pipewrite, piperead or pipeclose begins. fileclose calls
      pipeclose when the last descriptor of that end goes away: no process can be
      using the end then, or use it afterwards. */
  predicate Start(s: State, p: nat, j: Job, t: State)
    requires p < |s.threads|
  {
    && s.threads[p].pc == Idle && |s.began| == |s.threads|
    && t == With(s, p, s.threads[p].(pc := Enter, job := j)).(began := s.began[p := Mine(s.sent, p)])
    && match j
       case NoJob => false
       case Writing(src, i) => i == 0 && !Gone(s, Writers)
       case Reading(n, got) => got == [] && !Gone(s, Readers)
       case Closing(end) => !Gone(s, end) && !InUse(s, end)
  }

  /** The bytes that p has sent. */
  function Mine(sent: seq<(nat, byte)>, p: nat): (bs: seq<byte>) {
    if sent == [] then []
    else
      var last := sent[|sent| - 1];
      Mine(sent[..|sent| - 1], p) + if last.0 == p then [last.1] else []
  }

  lemma MineNext(sent: seq<(nat, byte)>, q: nat, b: byte, p: nat)
    ensures Mine(sent + [(q, b)], p) == Mine(sent, p) + if q == p then [b] else []
  {
    assert (sent + [(q, b)])[..|sent|] == sent;
  }

  predicate Uses(j: Job, end: Chan) {
    if end.Writers? then j.Writing? else j.Reading?
  }

  predicate InUse(s: State, end: Chan) {
    exists q :: 0 <= q < |s.threads| && Uses(s.threads[q].job, end)
  }

  predicate Gone(s: State, end: Chan) {
    || (if end.Writers? then !s.ring.writeopen else !s.ring.readopen)
    || exists q :: 0 <= q < |s.threads| && s.threads[q].job == Closing(end)
  }

  /** kill: the process is marked, and made runnable if it sleeps. */
  predicate Kill(s: State, p: nat, t: State)
    requires p < |s.threads|
  {
    s.ptable == Free && t == With(s, p, s.threads[p].(killed := true, sleeping := false))
  }

  // ---- the invariant

  predicate HoldsLock(pc: Pc) {
    pc.Loop? || pc.Copy? || pc.Wake? || pc.Scan? || pc.SleepTake? || pc.SleepDrop? || pc.Leave?
  }

  predicate HoldsTable(pc: Pc) {
    pc.Scan? || pc.SleepDrop? || pc.SleepMark? || pc.Switch? || pc.Resume?
  }

  predicate Sleepy(pc: Pc) {
    pc.SleepTake? || pc.SleepDrop? || pc.SleepMark? || pc.Switch? || pc.Off? || pc.Resume?
  }

  /** What a process is doing fits where it is in the code. */
  predicate JobOk(t: Thread) {
    && (t.pc.Idle? <==> t.job.NoJob?)
    && (t.pc.Copy? ==> t.job.Reading?)
    && (Sleepy(t.pc) ==> t.job.Writing? || t.job.Reading?)
    && ((t.pc.Wake? || t.pc.Scan?) && t.pc.next.ToSleep? ==> t.job.Writing?)
    && (t.job.Writing? ==> t.job.i <= |t.job.src|)
    && (t.job.Reading? ==> |t.job.got| <= t.job.n)
    && (t.job.Reading? && (t.pc.Enter? || t.pc.Loop? || Sleepy(t.pc)) ==> t.job.got == [])
    && (t.sleeping ==> t.pc.Switch? || t.pc.Off?)
  }

  ghost predicate ThreadOk(s: State, p: nat)
    requires p < |s.threads|
  {
    && (HoldsLock(s.threads[p].pc) <==> s.lock == By(p))
    && (HoldsTable(s.threads[p].pc) <==> s.ptable == By(p))
    && JobOk(s.threads[p])
  }

  /** Asleep, or bound to sleep before anyone can be told. */
  predicate Waiting(t: Thread) {
    t.pc.SleepTake? || t.pc.SleepDrop? || t.pc.SleepMark? || t.sleeping
    || ((t.pc.Wake? || t.pc.Scan?) && t.pc.next.ToSleep?)
  }

  /** The condition under which the code may sleep on c. */
  predicate Blocked(r: Ring, c: Chan) {
    if c.Readers? then Empty(r) && r.writeopen else Full(r) && r.readopen
  }

  /** A process that will call wakeup(c) before it lets go of the pipe lock. */
  predicate Owes(t: Thread, c: Chan) {
    || ((t.pc.Wake? || t.pc.Scan?) && WakeChan(t.job) == c)
    || (t.pc.Loop? && t.job.Writing? && c.Readers?)
    || (t.pc.Copy? && c.Writers?)
  }

  ghost predicate Promised(s: State, c: Chan) {
    exists q :: 0 <= q < |s.threads| && Owes(s.threads[q], c)
  }

  ghost predicate WaiterOk(s: State, p: nat)
    requires p < |s.threads|
  {
    Waiting(s.threads[p]) ==> Blocked(s.ring, SleepChan(s.threads[p].job)) || Promised(s, SleepChan(s.threads[p].job))
  }

  ghost predicate WaitersOk(s: State) {
    forall p :: 0 <= p < |s.threads| ==> WaiterOk(s, p)
  }

  /** An end that is closed or being closed is not in use. */
  ghost predicate EndsOk(s: State) {
    (Gone(s, Readers) ==> !InUse(s, Readers)) && (Gone(s, Writers) ==> !InUse(s, Writers))
  }

  function Bytes(sent: seq<(nat, byte)>): (bs: seq<byte>)
    ensures |bs| == |sent|
  {
    seq(|sent|, i requires 0 <= i < |sent| => sent[i].1)
  }

  /** Every byte read so far is the stream written so far, in order; the rest of
      the stream is in the pipe. */
  ghost predicate StreamOk(s: State)
    requires Valid(s.ring)
  {
    Bytes(s.sent) == s.taken + Contents(s.ring)
  }

  /** What holds in every run, with or without kill. */
  ghost predicate Safe(s: State) {
    && Valid(s.ring) && StreamOk(s) && EndsOk(s)
    && (forall p :: 0 <= p < |s.threads| ==> ThreadOk(s, p))
    && (s.lock == Free || s.lock.p < |s.threads|) && (s.ptable == Free || s.ptable.p < |s.threads|)
  }

  datatype Action = Run(p: nat) | Begin(p: nat, job: Job) | Killing(p: nat)

  predicate Next(s: State, a: Action, t: State) {
    && a.p < |s.threads|
    && match a
       case Run(p) => Step(s, p, t)
       case Begin(p, j) => Start(s, p, j, t)
       case Killing(p) => Kill(s, p, t)
  }

  // ---- safety of each step

  lemma StepSelf(s: State, p: nat, t: State)
    requires p < |s.threads| && ThreadOk(s, p) && Step(s, p, t)
    ensures |t.threads| == |s.threads| && ThreadOk(t, p)
  {
    if InSleep(s.threads[p].pc) {
      SleepSelf(s, p, t);
    } else {
      CopySelf(s, p, t);
    }
  }

  /** Between sleep's test and its return. */
  predicate InSleep(pc: Pc) {
    pc.SleepTake? || pc.SleepDrop? || pc.SleepMark? || pc.Switch? || pc.Off? || pc.Resume?
  }

  lemma SleepSelf(s: State, p: nat, t: State)
    requires p < |s.threads| && InSleep(s.threads[p].pc) && ThreadOk(s, p) && Step(s, p, t)
    ensures |t.threads| == |s.threads| && ThreadOk(t, p)
  {
    hide Full, Empty, Put, Take, Head, Valid;
  }

  lemma CopySelf(s: State, p: nat, t: State)
    requires p < |s.threads| && !InSleep(s.threads[p].pc) && ThreadOk(s, p) && Step(s, p, t)
    ensures |t.threads| == |s.threads| && ThreadOk(t, p)
  {
    hide Full, Empty, Put, Take, Head, Valid;
  }

  /** A step of p moves no other process, only ever wakes it, and changes a lock
      only between free and held by p. */
  lemma StepOther(s: State, p: nat, t: State, q: nat)
    requires p < |s.threads| && ThreadOk(s, p) && Step(s, p, t) && q < |s.threads| && q != p && ThreadOk(s, q)
    ensures |t.threads| == |s.threads| && ThreadOk(t, q) && SameJob(s.threads[q], t.threads[q])
  {
    hide Full, Empty, Put, Take, Head, Valid, HoldsLock, HoldsTable, Step;
    StepOthersStay(s, p, t, q);
    StepHolders(s, p, t);
  }

  lemma StepOthersStay(s: State, p: nat, t: State, q: nat)
    requires p < |s.threads| && Step(s, p, t) && q < |s.threads| && q != p
    ensures |t.threads| == |s.threads| && SameJob(s.threads[q], t.threads[q])
  {
    hide Full, Empty, Put, Take, Head, Valid;
  }

  predicate SameJob(a: Thread, b: Thread) {
    b.pc == a.pc && b.job == a.job && b.killed == a.killed && (b.sleeping ==> a.sleeping)
  }

  lemma StepHolders(s: State, p: nat, t: State)
    requires p < |s.threads| && ThreadOk(s, p) && Step(s, p, t)
    ensures t.lock == s.lock || (s.lock == Free && t.lock == By(p)) || (s.lock == By(p) && t.lock == Free)
    ensures t.ptable == s.ptable || (s.ptable == Free && t.ptable == By(p)) || (s.ptable == By(p) && t.ptable == Free)
  {
    hide Full, Empty, Put, Take, Head, Valid;
  }

  lemma StepStream(s: State, p: nat, t: State)
    requires Safe(s) && p < |s.threads| && Step(s, p, t)
    ensures Valid(t.ring) && StreamOk(t)
  {
    hide Contents, Put, Take, Full, Empty, Gone, InUse;
    assert ThreadOk(s, p);
    var th := s.threads[p];
    if th.pc.Loop? && th.job.Writing? && th.job.i < |th.job.src| && !Full(s.ring) {
      var b := th.job.src[th.job.i];
      PutAppends(s.ring, b);
      assert Bytes(t.sent) == Bytes(s.sent) + [b];
    } else if th.pc.Copy? && |th.job.got| < th.job.n && !Empty(s.ring) {
      TakeRemoves(s.ring);
    } else {
      SameContents(s.ring, t.ring);
    }
  }

  lemma SameContents(r: Ring, t: Ring)
    requires Valid(r) && t.data == r.data && t.nread == r.nread && t.nwrite == r.nwrite
    ensures Valid(t) && Contents(t) == Contents(r)
  {
  }

  // ---- ends

  lemma StepJob(s: State, p: nat, t: State)
    requires p < |s.threads| && Step(s, p, t)
    ensures |t.threads| == |s.threads|
    ensures t.threads[p].job.Writing? ==> s.threads[p].job.Writing?
    ensures t.threads[p].job.Reading? ==> s.threads[p].job.Reading?
    ensures t.threads[p].job.Closing? ==> t.threads[p].job == s.threads[p].job
  {
    hide Full, Empty, Put, Take, Head, Protocol;
    if !s.threads[p].pc.Loop? && !s.threads[p].pc.Copy? {
      ProtocolKeeps(s, p, t);
    }
  }

  lemma StepFlags(s: State, p: nat, t: State)
    requires p < |s.threads| && Step(s, p, t)
    ensures t.ring.readopen == s.ring.readopen || s.threads[p].job == Closing(Readers)
    ensures t.ring.writeopen == s.ring.writeopen || s.threads[p].job == Closing(Writers)
  {
    hide Full, Empty, Head, Plus;
  }

  lemma StepEnds(s: State, p: nat, t: State, end: Chan)
    requires p < |s.threads| && Step(s, p, t)
    requires Gone(s, end) ==> !InUse(s, end)
    ensures Gone(t, end) ==> !InUse(t, end)
  {
    hide Step;
    StepJob(s, p, t);
    StepFlags(s, p, t);
    forall q | 0 <= q < |s.threads| && q != p
      ensures t.threads[q].job == s.threads[q].job
    {
      StepOthersStay(s, p, t, q);
    }
    if q :| 0 <= q < |t.threads| && t.threads[q].job == Closing(end) {
      assert s.threads[q].job == Closing(end);
    }
    if InUse(t, end) {
      var q :| 0 <= q < |t.threads| && Uses(t.threads[q].job, end);
      assert Uses(s.threads[q].job, end);
    }
  }

  lemma StartEnds(s: State, p: nat, j: Job, t: State, end: Chan)
    requires p < |s.threads| && Start(s, p, j, t) && s.threads[p].job == NoJob
    requires Gone(s, end) ==> !InUse(s, end)
    ensures Gone(t, end) ==> !InUse(t, end)
  {
    assert forall q :: 0 <= q < |s.threads| && q != p ==> t.threads[q] == s.threads[q];
    if q :| 0 <= q < |t.threads| && t.threads[q].job == Closing(end) {
      assert q != p ==> s.threads[q].job == Closing(end);
    }
    if InUse(t, end) {
      var q :| 0 <= q < |t.threads| && Uses(t.threads[q].job, end);
      assert q != p ==> Uses(s.threads[q].job, end);
    }
  }

  // ---- safety of every action

  lemma StepSafe(s: State, p: nat, t: State)
    requires Safe(s) && p < |s.threads| && Step(s, p, t)
    ensures Safe(t)
  {
    hide Step, StreamOk, Valid, Gone, InUse;
    assert ThreadOk(s, p);
    StepSelf(s, p, t);
    forall q | 0 <= q < |t.threads|
      ensures ThreadOk(t, q)
    {
      assert ThreadOk(s, q);
      if q != p {
        StepOther(s, p, t, q);
      }
    }
    StepHolders(s, p, t);
    StepStream(s, p, t);
    StepEnds(s, p, t, Readers);
    StepEnds(s, p, t, Writers);
  }

  lemma StartSafe(s: State, p: nat, j: Job, t: State)
    requires Safe(s) && p < |s.threads| && Start(s, p, j, t)
    ensures Safe(t)
  {
    hide StreamOk, Valid, Gone, InUse;
    assert ThreadOk(s, p);
    forall q | 0 <= q < |t.threads|
      ensures ThreadOk(t, q)
    {
      assert ThreadOk(s, q);
    }
    StartEnds(s, p, j, t, Readers);
    StartEnds(s, p, j, t, Writers);
    assert StreamOk(t) by { StreamKept(s, t); }
  }

  lemma StreamKept(s: State, t: State)
    requires Valid(s.ring) && StreamOk(s) && t.ring == s.ring && t.sent == s.sent && t.taken == s.taken
    ensures StreamOk(t)
  {
  }

  lemma KillSafe(s: State, p: nat, t: State)
    requires Safe(s) && p < |s.threads| && Kill(s, p, t)
    ensures Safe(t)
  {
    hide StreamOk, Valid;
    forall q | 0 <= q < |t.threads|
      ensures ThreadOk(t, q) && t.threads[q].job == s.threads[q].job
    {
      assert ThreadOk(s, q);
    }
    assert StreamOk(t) by { StreamKept(s, t); }
    assert EndsOk(t);
  }

  lemma NextSafe(s: State, a: Action, t: State)
    requires Safe(s) && Next(s, a, t)
    ensures Safe(t)
  {
    match a
    case Run(p) => StepSafe(s, p, t);
    case Begin(p, j) => StartSafe(s, p, j, t);
    case Killing(p) => KillSafe(s, p, t);
  }

  lemma InitSafe(s: State)
    requires Init(s)
    ensures Safe(s) && WaitersOk(s)
  {
    assert forall p :: 0 <= p < |s.threads| ==> ThreadOk(s, p) && WaiterOk(s, p);
    assert !InUse(s, Readers) && !InUse(s, Writers);
  }

  // ---- no lost wakeup

  lemma OwerHolds(s: State, q: nat, c: Chan)
    requires q < |s.threads| && ThreadOk(s, q) && Owes(s.threads[q], c)
    ensures s.lock == By(q) && Promised(s, c)
  {
  }

  /** A killed writer that finds the pipe full returns without waking the
      readers, although it may have stored bytes since they went to sleep. */
  ghost predicate Abandons(s: State, p: nat)
    requires p < |s.threads|
  {
    var th := s.threads[p];
    && th.pc.Loop? && th.job.Writing? && th.job.i < |th.job.src| && Full(s.ring) && s.ring.readopen && th.killed
    && exists r :: 0 <= r < |s.threads| && Waiting(s.threads[r]) && s.threads[r].job.Reading?
  }

  lemma SelfWaiter(s: State, p: nat, t: State)
    requires Safe(s) && WaitersOk(s) && p < |s.threads| && Step(s, p, t) && Safe(t) && |t.threads| == |s.threads|
    ensures WaiterOk(t, p)
  {
    hide Step, StreamOk, EndsOk, Blocked;
    assert ThreadOk(s, p) && WaiterOk(s, p);
    if Waiting(t.threads[p]) {
      var c := SleepChan(t.threads[p].job);
      WaiterStep(s, p, t);
      if Waiting(s.threads[p]) && !Blocked(s.ring, c) {
        WaiterOwesNot(s.threads[p]);
        var q :| 0 <= q < |s.threads| && Owes(s.threads[q], c);
        assert ThreadOk(s, q);
        OwerHolds(s, q, c);
        StepOthersStay(s, p, t, q);
        assert Owes(t.threads[q], c);
      }
    }
  }

  /** A process starts to wait only when blocked, and leaves the ring alone. */
  lemma WaiterStep(s: State, p: nat, t: State)
    requires p < |s.threads| && ThreadOk(s, p) && Step(s, p, t)
    requires |t.threads| == |s.threads| && Waiting(t.threads[p])
    ensures t.ring == s.ring && SleepChan(t.threads[p].job) == SleepChan(s.threads[p].job)
    ensures !Waiting(s.threads[p]) ==> Blocked(s.ring, SleepChan(t.threads[p].job))
  {
    hide Body, Protocol;
    if s.threads[p].pc.Loop? || s.threads[p].pc.Copy? {
      WaiterBody(s, p, t);
    } else {
      WaiterProtocol(s, p, t);
    }
  }

  lemma WaiterBody(s: State, p: nat, t: State)
    requires p < |s.threads| && Body(s, p, t) && (s.threads[p].pc.Loop? || s.threads[p].pc.Copy?)
    requires |t.threads| == |s.threads| && Waiting(t.threads[p]) && !s.threads[p].sleeping
    ensures t.ring == s.ring && SleepChan(t.threads[p].job) == SleepChan(s.threads[p].job)
    ensures Blocked(s.ring, SleepChan(t.threads[p].job))
  {
    hide Put, Take, Head, Full, Empty, Valid;
  }

  lemma WaiterProtocol(s: State, p: nat, t: State)
    requires p < |s.threads| && JobOk(s.threads[p]) && Protocol(s, p, t)
    requires |t.threads| == |s.threads| && Waiting(t.threads[p])
    ensures t.ring == s.ring && Waiting(s.threads[p])
    ensures SleepChan(t.threads[p].job) == SleepChan(s.threads[p].job)
  {
  }

  /** Nobody waits for a wakeup of its own. */
  lemma WaiterOwesNot(t: Thread)
    requires JobOk(t) && Waiting(t)
    ensures !Owes(t, SleepChan(t.job))
  {
  }

  lemma OtherWaiter(s: State, p: nat, t: State, r: nat)
    requires Safe(s) && WaitersOk(s) && p < |s.threads| && Step(s, p, t) && Safe(t) && r < |s.threads| && r != p
    requires !Abandons(s, p)
    ensures |t.threads| == |s.threads| && WaiterOk(t, r)
  {
    hide Step, StreamOk, EndsOk;
    StepOthersStay(s, p, t, r);
    assert WaiterOk(s, r);
    var c := SleepChan(t.threads[r].job);
    if Waiting(t.threads[r]) {
      if Blocked(s.ring, c) {
        BlockedStep(s, p, t, c);
      } else {
        var q :| 0 <= q < |s.threads| && Owes(s.threads[q], c);
        if q == p {
          PromiseStep(s, p, t, r);
        } else {
          StepOthersStay(s, p, t, q);
          assert Owes(t.threads[q], c);
        }
      }
    }
  }

  /** A step that ends a sleeping condition comes with the promise to wake. */
  lemma BlockedStep(s: State, p: nat, t: State, c: Chan)
    requires Safe(s) && p < |s.threads| && Step(s, p, t) && Safe(t) && Blocked(s.ring, c)
    ensures Blocked(t.ring, c) || Owes(t.threads[p], c)
  {
    hide StreamOk, EndsOk;
    assert ThreadOk(s, p);
    var th := s.threads[p];
    if th.pc.Loop? && th.job.Writing? && th.job.i < |th.job.src| && !Full(s.ring) {
      TestsExact(s.ring);
    } else if th.pc.Copy? && |th.job.got| < th.job.n && !Empty(s.ring) {
      TestsExact(s.ring);
    }
  }

  /** A promise to wake is kept before the lock is released, unless a killed
      writer abandons its readers. */
  lemma PromiseStep(s: State, p: nat, t: State, r: nat)
    requires Safe(s) && p < |s.threads| && Step(s, p, t) && Safe(t) && !Abandons(s, p)
    requires r < |s.threads| && r != p && r < |t.threads| && Waiting(t.threads[r]) && SameJob(s.threads[r], t.threads[r])
    requires Owes(s.threads[p], SleepChan(s.threads[r].job))
    ensures Owes(t.threads[p], SleepChan(s.threads[r].job))
  {
    hide StreamOk, Put, Take, Head, Full, Empty;
    assert ThreadOk(s, p) && ThreadOk(s, r) && ThreadOk(t, r);
    assert s.threads[r].job.Reading? ==> InUse(s, Readers);
  }

  /** For every step from a good state: no reader or writer is left asleep without
      reason exactly when the step is not that of a killed writer abandoning its
      readers. */
  lemma StepExact(s: State, p: nat, t: State)
    requires Safe(s) && WaitersOk(s) && p < |s.threads| && Step(s, p, t)
    ensures Safe(t) && (WaitersOk(t) <==> !Abandons(s, p))
  {
    hide Step, StreamOk, EndsOk;
    StepSafe(s, p, t);
    if !Abandons(s, p) {
      StepLength(s, p, t);
      SelfWaiter(s, p, t);
      forall r | 0 <= r < |t.threads|
        ensures WaiterOk(t, r)
      {
        if r != p {
          OtherWaiter(s, p, t, r);
        }
      }
    } else {
      AbandonBreaks(s, p, t);
    }
  }

  lemma StepLength(s: State, p: nat, t: State)
    requires p < |s.threads| && Step(s, p, t)
    ensures |t.threads| == |s.threads|
  {
    hide Full, Empty, Put, Take, Head, Valid;
  }

  lemma AbandonBreaks(s: State, p: nat, t: State)
    requires Safe(s) && p < |s.threads| && Step(s, p, t) && Safe(t) && Abandons(s, p)
    ensures !WaitersOk(t)
  {
    hide StreamOk, EndsOk;
    var r :| 0 <= r < |s.threads| && Waiting(s.threads[r]) && s.threads[r].job.Reading?;
    TestsExact(s.ring);
    assert t.threads[r] == s.threads[r] && t.ring == s.ring;
    if WaiterOk(t, r) {
      var q :| 0 <= q < |t.threads| && Owes(t.threads[q], Readers);
      assert ThreadOk(t, q) && ThreadOk(t, p);
      OwerHolds(t, q, Readers);
      assert false;
    }
  }

  lemma StartWaiters(s: State, p: nat, j: Job, t: State)
    requires Safe(s) && WaitersOk(s) && p < |s.threads| && Start(s, p, j, t)
    ensures WaitersOk(t)
  {
    hide StreamOk, EndsOk, Gone, InUse, Mine;
    assert ThreadOk(s, p);
    forall r | 0 <= r < |t.threads|
      ensures WaiterOk(t, r)
    {
      assert WaiterOk(s, r);
      var c := SleepChan(s.threads[r].job);
      if Promised(s, c) {
        var q :| 0 <= q < |s.threads| && Owes(s.threads[q], c);
        assert q != p ==> Owes(t.threads[q], c);
      }
    }
  }

  lemma KillWaiters(s: State, p: nat, t: State)
    requires Safe(s) && WaitersOk(s) && p < |s.threads| && Kill(s, p, t)
    ensures WaitersOk(t)
  {
    hide StreamOk, EndsOk;
    forall r | 0 <= r < |t.threads|
      ensures WaiterOk(t, r)
    {
      assert WaiterOk(s, r);
      var c := SleepChan(s.threads[r].job);
      if Promised(s, c) {
        var q :| 0 <= q < |s.threads| && Owes(s.threads[q], c);
        assert Owes(t.threads[q], c);
      }
    }
  }

  // ---- what each call delivers

  /** The result, once decided, fits the bytes moved. */
  predicate ResultOk(t: Thread, r: int) {
    match t.job
    case Writing(src, i) => (r == |src| && i == |src|) || r == -1
    case Reading(n, got) => r == |got| || (r == -1 && got == [])
    case _ => true
  }

  predicate Decided(t: Thread) {
    t.pc.Leave? || ((t.pc.Wake? || t.pc.Scan?) && t.pc.next.ToLeave?)
  }

  function Result(t: Thread): (r: int)
    requires Decided(t)
  {
    if t.pc.Leave? then t.pc.result else t.pc.next.result
  }

  ghost predicate WriterOk(s: State, p: nat)
    requires p < |s.threads| && |s.began| == |s.threads|
  {
    var t := s.threads[p];
    && (t.job.Writing? ==> t.job.i <= |t.job.src| && Mine(s.sent, p) == s.began[p] + t.job.src[..t.job.i])
    && (Decided(t) ==> ResultOk(t, Result(t)))
  }

  /** The bytes a read has collected are the last ones taken, and it comes back
      with fewer than it asked for only when the pipe is empty; with none only
      when the write end is closed besides. */
  ghost predicate ReaderOk(s: State, p: nat)
    requires p < |s.threads|
  {
    var t := s.threads[p];
    t.job.Reading? ==>
      && |t.job.got| <= |s.taken| && s.taken[|s.taken| - |t.job.got|..] == t.job.got
      && (Decided(t) && Result(t) >= 0 ==> |t.job.got| >= t.job.n || Empty(s.ring))
      && (t.pc.Copy? || (Decided(t) && Result(t) >= 0) ==> t.job.got != [] || t.job.n == 0 || !Empty(s.ring) || !s.ring.writeopen)
  }

  ghost predicate CallsOk(s: State) {
    && |s.began| == |s.threads|
    && forall p :: 0 <= p < |s.threads| ==> WriterOk(s, p) && ReaderOk(s, p)
  }

  lemma StepWriter(s: State, p: nat, t: State, q: nat)
    requires p < |s.threads| && q < |s.threads| && Step(s, p, t) && |s.began| == |s.threads| && WriterOk(s, q)
    requires JobOk(s.threads[p]) && |t.threads| == |s.threads| && (q != p ==> SameJob(s.threads[q], t.threads[q]))
    ensures t.began == s.began && WriterOk(t, q)
  {
    hide Body, Protocol, Mine;
    if s.threads[p].pc.Loop? || s.threads[p].pc.Copy? {
      WriterBody(s, p, t, q);
    } else {
      WriterProtocol(s, p, t, q);
    }
  }

  lemma WriterBody(s: State, p: nat, t: State, q: nat)
    requires p < |s.threads| && q < |s.threads| && Body(s, p, t) && |s.began| == |s.threads| && WriterOk(s, q)
    requires JobOk(s.threads[p]) && |t.threads| == |s.threads| && (q != p ==> SameJob(s.threads[q], t.threads[q]))
    requires s.threads[p].pc.Loop? || s.threads[p].pc.Copy?
    ensures t.began == s.began && WriterOk(t, q)
  {
    hide Full, Empty, Put, Take, Head, Mine;
    var th := s.threads[p];
    if th.pc.Loop? && th.job.Writing? && th.job.i < |th.job.src| && !Full(s.ring) {
      MineNext(s.sent, p, th.job.src[th.job.i], q);
      assert th.job.src[..th.job.i + 1] == th.job.src[..th.job.i] + [th.job.src[th.job.i]];
    }
  }

  /** The lock and sleep steps leave the data alone. */
  lemma ProtocolKeeps(s: State, p: nat, t: State)
    requires p < |s.threads| && Protocol(s, p, t)
    ensures t.ring == s.ring && t.sent == s.sent && t.taken == s.taken && t.began == s.began && |t.threads| == |s.threads|
    ensures t.threads[p].job == s.threads[p].job || (t.threads[p].job == NoJob && t.threads[p].pc == Idle)
    ensures Decided(t.threads[p]) ==> Decided(s.threads[p]) && Result(t.threads[p]) == Result(s.threads[p])
    ensures !t.threads[p].pc.Copy?
  {
  }

  lemma WriterProtocol(s: State, p: nat, t: State, q: nat)
    requires p < |s.threads| && q < |s.threads| && Protocol(s, p, t) && |s.began| == |s.threads| && WriterOk(s, q)
    requires |t.threads| == |s.threads| && (q != p ==> SameJob(s.threads[q], t.threads[q]))
    ensures t.began == s.began && WriterOk(t, q)
  {
    hide Mine, Protocol;
    ProtocolKeeps(s, p, t);
  }

  lemma ReaderSelf(s: State, p: nat, t: State)
    requires p < |s.threads| && Step(s, p, t) && ReaderOk(s, p) && JobOk(s.threads[p]) && |t.threads| == |s.threads|
    ensures ReaderOk(t, p)
  {
    hide Body, Protocol;
    if s.threads[p].pc.Loop? || s.threads[p].pc.Copy? {
      ReaderBody(s, p, t);
    } else {
      ProtocolKeeps(s, p, t);
    }
  }

  lemma ReaderBody(s: State, p: nat, t: State)
    requires p < |s.threads| && Body(s, p, t) && ReaderOk(s, p) && JobOk(s.threads[p]) && |t.threads| == |s.threads|
    requires s.threads[p].pc.Loop? || s.threads[p].pc.Copy?
    ensures ReaderOk(t, p)
  {
    hide Full, Put, Take, Head;
    var th := s.threads[p];
    if th.pc.Copy? && |th.job.got| < th.job.n && !Empty(s.ring) {
      var b := Head(s.ring);
      var k := |s.taken| - |th.job.got|;
      assert (s.taken + [b])[k..] == s.taken[k..] + [b];
    }
  }

  lemma ReaderOther(s: State, p: nat, t: State, q: nat)
    requires p < |s.threads| && q < |s.threads| && q != p && Step(s, p, t) && ReaderOk(s, q) && ThreadOk(s, p) && ThreadOk(s, q)
    requires |t.threads| == |s.threads| && SameJob(s.threads[q], t.threads[q])
    ensures ReaderOk(t, q)
  {
    hide Full, Put, Take, Head, Empty;
    if s.threads[p].pc.Loop? || s.threads[p].pc.Copy? {
      assert !HoldsLock(s.threads[q].pc);
    }
  }

  lemma StepCalls(s: State, p: nat, t: State)
    requires Safe(s) && CallsOk(s) && p < |s.threads| && Step(s, p, t)
    ensures CallsOk(t)
  {
    hide Step, StreamOk, EndsOk, ReaderOk, WriterOk;
    StepLength(s, p, t);
    forall q | 0 <= q < |t.threads|
      ensures t.began == s.began && WriterOk(t, q) && ReaderOk(t, q)
    {
      assert ThreadOk(s, p) && ThreadOk(s, q) && WriterOk(s, q) && ReaderOk(s, q);
      if q == p {
        ReaderSelf(s, p, t);
      } else {
        StepOthersStay(s, p, t, q);
        ReaderOther(s, p, t, q);
      }
      StepWriter(s, p, t, q);
    }
    assert ThreadOk(s, p) && WriterOk(s, p);
    StepWriter(s, p, t, p);
  }

  lemma StartCalls(s: State, p: nat, j: Job, t: State)
    requires CallsOk(s) && p < |s.threads| && Start(s, p, j, t)
    ensures CallsOk(t)
  {
    hide Gone, InUse, Mine;
    forall q | 0 <= q < |t.threads|
      ensures WriterOk(t, q) && ReaderOk(t, q)
    {
      assert WriterOk(s, q) && ReaderOk(s, q);
    }
  }

  lemma KillCalls(s: State, p: nat, t: State)
    requires CallsOk(s) && p < |s.threads| && Kill(s, p, t)
    ensures CallsOk(t)
  {
    hide Mine;
    forall q | 0 <= q < |t.threads|
      ensures WriterOk(t, q) && ReaderOk(t, q)
    {
      assert WriterOk(s, q) && ReaderOk(s, q);
    }
  }

  // ---- whole runs

  /** acts leads through the states ss. */
  predicate Course(ss: seq<State>, acts: seq<Action>) {
    |ss| == |acts| + 1 && forall i :: 0 <= i < |acts| ==> Next(ss[i], acts[i], ss[i + 1])
  }

  predicate Trace(ss: seq<State>, acts: seq<Action>) {
    Course(ss, acts) && Init(ss[0])
  }

  lemma {:induction false} TraceSafe(ss: seq<State>, acts: seq<Action>, k: nat)
    requires Trace(ss, acts) && k < |ss|
    ensures Safe(ss[k]) && CallsOk(ss[k])
  {
    hide Step, Start, Kill, Safe, CallsOk;
    if k == 0 {
      InitSafe(ss[0]);
      InitCalls(ss[0]);
    } else {
      TraceSafe(ss, acts, k - 1);
      var s, t := ss[k - 1], ss[k];
      NextSafe(s, acts[k - 1], t);
      match acts[k - 1]
      case Run(p) => StepCalls(s, p, t);
      case Begin(p, j) => StartCalls(s, p, j, t);
      case Killing(p) => KillCalls(s, p, t);
    }
  }

  lemma InitCalls(s: State)
    requires Init(s)
    ensures CallsOk(s)
  {
    assert forall p :: 0 <= p < |s.threads| ==> WriterOk(s, p) && ReaderOk(s, p);
  }

  // ---- when a call fails

  /** A call that leaves with -1: a reader because it is killed at an empty pipe with
      writers, a writer because the pipe is full and it is killed or alone. */
  ghost predicate FailOk(s: State, p: nat)
    requires p < |s.threads|
  {
    var t := s.threads[p];
    Decided(t) && Result(t) < 0 ==>
      && t.pc == Leave(-1)
      && match t.job
         case Reading(_, got) => got == [] && t.killed && Empty(s.ring) && s.ring.writeopen
         case Writing(src, i) => i < |src| && Full(s.ring) && (t.killed || !s.ring.readopen)
         case _ => false
  }

  lemma FailSelf(s: State, p: nat, t: State)
    requires p < |s.threads| && Step(s, p, t) && FailOk(s, p) && JobOk(s.threads[p]) && |t.threads| == |s.threads|
    ensures FailOk(t, p)
  {
    hide Put, Take, Head, Full, Empty;
  }

  lemma FailOther(s: State, p: nat, t: State, q: nat)
    requires p < |s.threads| && q < |s.threads| && q != p && Step(s, p, t) && FailOk(s, q) && ThreadOk(s, p) && ThreadOk(s, q)
    requires |t.threads| == |s.threads| && SameJob(s.threads[q], t.threads[q]) && t.threads[q].killed == s.threads[q].killed
    ensures FailOk(t, q)
  {
    hide Put, Take, Head, Full, Empty, Body, Protocol;
    if s.threads[p].pc.Loop? || s.threads[p].pc.Copy? {
      assert !HoldsLock(s.threads[q].pc);
    } else {
      ProtocolKeeps(s, p, t);
    }
  }

  lemma NextFails(s: State, a: Action, t: State)
    requires Safe(s) && Next(s, a, t) && forall q :: 0 <= q < |s.threads| ==> FailOk(s, q)
    ensures forall q :: 0 <= q < |t.threads| ==> FailOk(t, q)
  {
    hide Step, StreamOk, EndsOk, FailOk;
    match a
    case Run(p) =>
      StepLength(s, p, t);
      StepKeepsKilled(s, p, t);
      forall q | 0 <= q < |t.threads|
        ensures FailOk(t, q)
      {
        assert ThreadOk(s, p) && ThreadOk(s, q) && FailOk(s, q);
        if q == p {
          FailSelf(s, p, t);
        } else {
          StepOthersStay(s, p, t, q);
          FailOther(s, p, t, q);
        }
      }
    case Begin(p, j) => StartFails(s, p, j, t);
    case Killing(p) => KillFails(s, p, t);
  }

  lemma StartFails(s: State, p: nat, j: Job, t: State)
    requires p < |s.threads| && Start(s, p, j, t) && forall q :: 0 <= q < |s.threads| ==> FailOk(s, q)
    ensures forall q :: 0 <= q < |t.threads| ==> FailOk(t, q)
  {
    hide Gone, InUse, Mine, Full, Empty;
    forall q | 0 <= q < |t.threads|
      ensures FailOk(t, q)
    {
      assert FailOk(s, q);
    }
  }

  lemma KillFails(s: State, p: nat, t: State)
    requires p < |s.threads| && Kill(s, p, t) && forall q :: 0 <= q < |s.threads| ==> FailOk(s, q)
    ensures forall q :: 0 <= q < |t.threads| ==> FailOk(t, q)
  {
    hide Full, Empty;
    forall q | 0 <= q < |t.threads|
      ensures FailOk(t, q)
    {
      assert FailOk(s, q);
    }
  }

  lemma {:induction false} TraceFails(ss: seq<State>, acts: seq<Action>, k: nat)
    requires Trace(ss, acts) && k < |ss|
    ensures forall q :: 0 <= q < |ss[k].threads| ==> FailOk(ss[k], q)
  {
    if k > 0 {
      TraceFails(ss, acts, k - 1);
      TraceSafe(ss, acts, k - 1);
      NextFails(ss[k - 1], acts[k - 1], ss[k]);
    }
  }

  /** In every run a call returns -1 only for this reason: a read because it was
      killed and the pipe was empty with its write end open, a write because the pipe
      was full and it was killed or the read end closed. */
  lemma FailsForReason(ss: seq<State>, acts: seq<Action>, k: nat, p: nat)
    requires Trace(ss, acts) && k < |ss| && p < |ss[k].threads| && ss[k].threads[p].pc.Leave? && ss[k].threads[p].pc.result < 0
    ensures var s, t := ss[k], ss[k].threads[p];
            && t.pc.result == -1
            && (t.job.Reading? ==> t.killed && Used(s.ring) == 0 && s.ring.writeopen)
            && (t.job.Writing? ==> t.job.i < |t.job.src| && Used(s.ring) == PIPESIZE && (t.killed || !s.ring.readopen))
            && (t.job.Reading? || t.job.Writing?)
  {
    TraceFails(ss, acts, k);
    TraceSafe(ss, acts, k);
    assert FailOk(ss[k], p);
    TestsExact(ss[k].ring);
  }

  /** What a process that holds the pipe lock does at its test, exactly. */
  lemma TestOutcome(s: State, p: nat, t: State)
    requires Safe(s) && p < |s.threads| && s.threads[p].pc.Loop? && Step(s, p, t)
    ensures p < |t.threads|
    ensures var th, pc := s.threads[p], t.threads[p].pc;
            && (th.job.Reading? ==>
                  && (pc == Leave(-1) <==> Used(s.ring) == 0 && s.ring.writeopen && th.killed)
                  && (pc == SleepTake <==> Used(s.ring) == 0 && s.ring.writeopen && !th.killed)
                  && (pc == Copy <==> Used(s.ring) > 0 || !s.ring.writeopen))
            && (th.job.Writing? && th.job.i < |th.job.src| ==>
                  && (pc == Leave(-1) <==> Used(s.ring) == PIPESIZE && (th.killed || !s.ring.readopen))
                  && (pc == Wake(ToSleep) <==> Used(s.ring) == PIPESIZE && !th.killed && s.ring.readopen)
                  && (pc == Loop <==> Used(s.ring) < PIPESIZE))
  {
    TestsExact(s.ring);
    hide Full, Empty, Put, Take, Head, StreamOk, EndsOk;
  }

  // ---- kill and sleep

  lemma KilledStep(s: State, p: nat, t: State)
    requires p < |s.threads| && Step(s, p, t) && s.threads[p].killed && !Waiting(s.threads[p])
    ensures p < |t.threads| && t.threads[p].killed && !Waiting(t.threads[p])
  {
    hide Full, Empty, Put, Take, Head;
  }

  lemma KilledNext(s: State, a: Action, t: State, p: nat)
    requires Next(s, a, t) && p < |s.threads| && s.threads[p].killed && !Waiting(s.threads[p])
    ensures p < |t.threads| && t.threads[p].killed && !Waiting(t.threads[p])
  {
    hide Step;
    match a
    case Run(q) =>
      StepKeepsKilled(s, q, t);
      if q == p {
        KilledStep(s, p, t);
      } else {
        StepOthersStay(s, q, t, p);
      }
    case Begin(q, j) =>
    case Killing(q) =>
  }

  /** Once a process is killed and not about to sleep, it never sleeps in the pipe
      again, in this call or a later one, whatever happens. */
  lemma {:induction false} KilledNeverSleeps(ss: seq<State>, acts: seq<Action>, k: nat, p: nat)
    requires Course(ss, acts) && k < |ss| && p < |ss[0].threads| && ss[0].threads[p].killed && !Waiting(ss[0].threads[p])
    ensures p < |ss[k].threads| && ss[k].threads[p].killed && !Waiting(ss[k].threads[p])
  {
    hide Next, Waiting;
    if k > 0 {
      KilledNeverSleeps(ss, acts, k - 1, p);
      KilledNext(ss[k - 1], acts[k - 1], ss[k], p);
    }
  }

  /** A process that has been woken goes back to its test with the job it had: from
      every state in which both locks are free, by steps of its own. */
  lemma WokenTests(s: State, p: nat) returns (ss: seq<State>, acts: seq<Action>)
    requires p < |s.threads| && s.threads[p].pc == Off && !s.threads[p].sleeping && s.lock == Free && s.ptable == Free
    ensures Course(ss, acts) && ss[0] == s && forall i :: 0 <= i < |acts| ==> acts[i] == Run(p)
    ensures ss[|acts|] == At(s, p, Loop).(lock := By(p))
  {
    var a := At(s, p, Resume).(ptable := By(p));
    var b := At(a, p, Enter).(ptable := Free);
    var c := At(b, p, Loop).(lock := By(p));
    ss, acts := [s, a, b, c], [Run(p), Run(p), Run(p)];
  }

  /** Past its test, and not asleep yet. */
  predicate Drowsy(t: Thread) {
    Waiting(t) && !t.sleeping
  }

  /** After s process p may come to sleep. */
  ghost predicate MaySleep(s: State, p: nat) {
    exists ss: seq<State>, acts: seq<Action> :: Course(ss, acts) && ss[0] == s && p < |ss[|acts|].threads| && ss[|acts|].threads[p].sleeping
  }

  lemma GoOn(ss: seq<State>, acts: seq<Action>, a: Action, t: State)
    requires Course(ss, acts) && Next(ss[|acts|], a, t)
    ensures Course(ss + [t], acts + [a]) && (ss + [t])[|acts| + 1] == t && (ss + [t])[0] == ss[0]
  {
    hide Next;
    var us, bs := ss + [t], acts + [a];
    forall i | 0 <= i < |bs|
      ensures Next(us[i], bs[i], us[i + 1])
    {
      assert i < |acts| ==> us[i] == ss[i] && us[i + 1] == ss[i + 1] && bs[i] == acts[i];
    }
  }

  /** A process at the beginning of sleep gets there. */
  lemma FallsAsleep(ss: seq<State>, acts: seq<Action>, p: nat)
    requires Course(ss, acts) && p < |ss[|acts|].threads| && ss[|acts|].threads[p].pc == SleepTake && ss[|acts|].ptable == Free
    ensures MaySleep(ss[0], p)
  {
    var us, bs, s := ss, acts, ss[|acts|];
    var t := At(s, p, SleepDrop).(ptable := By(p));
    GoOn(us, bs, Run(p), t);
    us, bs := us + [t], bs + [Run(p)];
    t := At(t, p, SleepMark).(lock := Free);
    GoOn(us, bs, Run(p), t);
    us, bs := us + [t], bs + [Run(p)];
    t := With(t, p, t.threads[p].(pc := Switch, sleeping := true));
    GoOn(us, bs, Run(p), t);
    us, bs := us + [t], bs + [Run(p)];
    assert us[|bs|].threads[p].sleeping;
  }

  /** kill keeps a process from sleeping on, or from going to sleep in the pipe, if
      and only if it does not come between the process's test and its sleep. */
  lemma KillExact(s: State, p: nat, t: State)
    requires Safe(s) && p < |s.threads| && Kill(s, p, t)
    ensures p < |t.threads| && t.threads[p].killed && !t.threads[p].sleeping
    ensures MaySleep(t, p) <==> Drowsy(s.threads[p])
  {
    hide StreamOk, EndsOk;
    assert ThreadOk(s, p);
    if Drowsy(s.threads[p]) {
      KilledDrowsy(s, p, t);
    } else if MaySleep(t, p) {
      var ss: seq<State>, acts: seq<Action> :| Course(ss, acts) && ss[0] == t && p < |ss[|acts|].threads| && ss[|acts|].threads[p].sleeping;
      KilledNeverSleeps(ss, acts, |acts|, p);
    }
  }

  lemma KilledDrowsy(s: State, p: nat, t: State)
    requires p < |s.threads| && Kill(s, p, t) && ThreadOk(s, p) && Drowsy(s.threads[p])
    ensures MaySleep(t, p)
  {
    hide MaySleep;
    if s.threads[p].pc == SleepTake {
      FallsAsleep([t], [], p);
    } else {
      var u := At(t, p, Scan(ToSleep)).(ptable := By(p));
      GoOn([t], [], Run(p), u);
      var v := At(u.(threads := Scanned(u.threads, WakeChan(u.threads[p].job))), p, SleepTake).(ptable := Free);
      GoOn([t, u], [Run(p)], Run(p), v);
      FallsAsleep([t, u, v], [Run(p), Run(p)], p);
    }
  }

  /** In every run, whoever is killed and however the counters wrap, the bytes
      read are a prefix of the bytes written and at most PIPESIZE are in between. */
  lemma PipeStream(ss: seq<State>, acts: seq<Action>, k: nat)
    requires Trace(ss, acts) && k < |ss|
    ensures ss[k].taken <= Bytes(ss[k].sent) && |ss[k].sent| - |ss[k].taken| == Used(ss[k].ring) <= PIPESIZE
  {
    TraceSafe(ss, acts, k);
  }

  /** A write that is about to return n has put exactly its n bytes into the
      stream, in order; one that returns -1 a prefix of them. */
  lemma WriteDelivers(ss: seq<State>, acts: seq<Action>, k: nat, p: nat)
    requires Trace(ss, acts) && k < |ss| && p < |ss[k].threads|
    requires ss[k].threads[p].pc.Leave? && ss[k].threads[p].job.Writing?
    ensures p < |ss[k].began| && ss[k].threads[p].job.i <= |ss[k].threads[p].job.src|
    ensures Mine(ss[k].sent, p) == ss[k].began[p] + ss[k].threads[p].job.src[..ss[k].threads[p].job.i]
    ensures ss[k].threads[p].pc.result == -1 || ss[k].threads[p].pc.result == ss[k].threads[p].job.i == |ss[k].threads[p].job.src|
  {
    TraceSafe(ss, acts, k);
    assert WriterOk(ss[k], p);
  }

  /** A read returns a contiguous piece of the stream: all it asked for, or all
      there was. It returns 0 for a non-empty request only at the end of a stream
      whose writers are gone. */
  lemma ReadDelivers(ss: seq<State>, acts: seq<Action>, k: nat, p: nat)
    requires Trace(ss, acts) && k < |ss| && p < |ss[k].threads|
    requires ss[k].threads[p].pc.Leave? && ss[k].threads[p].job.Reading? && ss[k].threads[p].pc.result >= 0
    ensures var s, j, r := ss[k], ss[k].threads[p].job, ss[k].threads[p].pc.result;
            && r == |j.got| <= j.n && r <= |s.taken| <= |s.sent| && j.got == Bytes(s.sent)[|s.taken| - r..|s.taken|]
            && (r < j.n ==> |s.taken| == |s.sent|)
            && (r == 0 && j.n > 0 ==> !s.ring.writeopen)
  {
    TraceSafe(ss, acts, k);
    var s := ss[k];
    assert ReaderOk(s, p) && WriterOk(s, p) && ThreadOk(s, p);
    TestsExact(s.ring);
    assert Bytes(s.sent)[..|s.taken|] == s.taken;
    var r := s.threads[p].pc.result;
    assert Bytes(s.sent)[|s.taken| - r..|s.taken|] == s.taken[|s.taken| - r..];
  }

  /** In runs in which no killed writer abandons its readers, nobody sleeps
      without reason. */
  lemma {:induction false} TraceWaiters(ss: seq<State>, acts: seq<Action>, k: nat)
    requires Trace(ss, acts) && k < |ss|
    requires forall i :: 0 <= i < k && acts[i].Run? && acts[i].p < |ss[i].threads| ==> !Abandons(ss[i], acts[i].p)
    ensures Safe(ss[k]) && WaitersOk(ss[k])
  {
    hide Step, Start, Kill, Safe, WaitersOk, Abandons;
    if k == 0 {
      InitSafe(ss[0]);
    } else {
      TraceWaiters(ss, acts, k - 1);
      var s, t := ss[k - 1], ss[k];
      NextSafe(s, acts[k - 1], t);
      match acts[k - 1]
      case Run(p) => StepExact(s, p, t);
      case Begin(p, j) => StartWaiters(s, p, j, t);
      case Killing(p) => KillWaiters(s, p, t);
    }
  }

  /** Without kill: whenever both locks are free, a sleeping reader means the
      pipe is empty with its write end open, a sleeping writer that it is full with
      its read end open. So never both. */
  lemma SleepersHaveReason(ss: seq<State>, acts: seq<Action>, k: nat, p: nat)
    requires Trace(ss, acts) && k < |ss| && p < |ss[k].threads|
    requires forall i :: 0 <= i < k ==> !acts[i].Killing?
    requires forall q :: 0 <= q < |ss[0].threads| ==> !ss[0].threads[q].killed
    requires ss[k].lock == Free && ss[k].ptable == Free && ss[k].threads[p].sleeping
    ensures ss[k].threads[p].job.Writing? || ss[k].threads[p].job.Reading?
    ensures ss[k].threads[p].job.Reading? ==> Used(ss[k].ring) == 0 && ss[k].ring.writeopen
    ensures ss[k].threads[p].job.Writing? ==> Used(ss[k].ring) == PIPESIZE && ss[k].ring.readopen
    ensures forall q :: 0 <= q < |ss[k].threads| && ss[k].threads[q].sleeping ==>
              (ss[k].threads[q].job.Reading? <==> ss[k].threads[p].job.Reading?)
  {
    forall i | 0 <= i < k && acts[i].Run? && acts[i].p < |ss[i].threads|
      ensures !Abandons(ss[i], acts[i].p)
    {
      NobodyKilled(ss, acts, i);
    }
    TraceWaiters(ss, acts, k);
    var s := ss[k];
    TestsExact(s.ring);
    forall q | 0 <= q < |s.threads| && s.threads[q].sleeping
      ensures Blocked(s.ring, SleepChan(s.threads[q].job)) && JobOk(s.threads[q])
    {
      assert WaiterOk(s, q) && ThreadOk(s, q);
      PromiseNeedsLock(s, SleepChan(s.threads[q].job));
    }
  }

  lemma PromiseNeedsLock(s: State, c: Chan)
    requires Safe(s)
    ensures Promised(s, c) ==> s.lock != Free
  {
    if Promised(s, c) {
      var q :| 0 <= q < |s.threads| && Owes(s.threads[q], c);
      assert ThreadOk(s, q);
    }
  }

  lemma {:induction false} NobodyKilled(ss: seq<State>, acts: seq<Action>, k: nat)
    requires Trace(ss, acts) && k < |ss|
    requires forall i :: 0 <= i < k ==> !acts[i].Killing?
    requires forall q :: 0 <= q < |ss[0].threads| ==> !ss[0].threads[q].killed
    ensures forall q :: 0 <= q < |ss[k].threads| ==> !ss[k].threads[q].killed
  {
    if k > 0 {
      hide Step, Start;
      NobodyKilled(ss, acts, k - 1);
      var s, t := ss[k - 1], ss[k];
      match acts[k - 1]
      case Run(p) => StepKeepsKilled(s, p, t);
      case Begin(p, j) => StartKeepsKilled(s, p, j, t);
      case Killing(p) =>
    }
  }

  lemma StepKeepsKilled(s: State, p: nat, t: State)
    requires p < |s.threads| && Step(s, p, t)
    ensures |t.threads| == |s.threads| && forall q :: 0 <= q < |s.threads| ==> t.threads[q].killed == s.threads[q].killed
  {
    hide Step;
    StepKilledSelf(s, p, t);
    forall q | 0 <= q < |s.threads| && q != p
      ensures t.threads[q].killed == s.threads[q].killed
    {
      StepOthersStay(s, p, t, q);
    }
  }

  lemma StepKilledSelf(s: State, p: nat, t: State)
    requires p < |s.threads| && Step(s, p, t)
    ensures |t.threads| == |s.threads| && t.threads[p].killed == s.threads[p].killed
  {
    hide Full, Empty, Put, Take, Head;
  }

  lemma StartKeepsKilled(s: State, p: nat, j: Job, t: State)
    requires p < |s.threads| && Start(s, p, j, t)
    ensures |t.threads| == |s.threads| && forall q :: 0 <= q < |s.threads| ==> t.threads[q].killed == s.threads[q].killed
  {
  }

  // ---- kill can strand a reader

  lemma Extend(ss: seq<State>, acts: seq<Action>, a: Action, t: State)
    requires Trace(ss, acts) && Next(ss[|acts|], a, t)
    ensures Trace(ss + [t], acts + [a]) && (ss + [t])[|acts| + 1] == t
  {
    hide Next, Init;
    GoOn(ss, acts, a, t);
  }

  /** Process 0 asleep in piperead on an empty pipe. */
  lemma ReaderAsleep(s0: State) returns (ss: seq<State>, acts: seq<Action>)
    requires Init(s0) && |s0.threads| == 2 && s0.threads == [Thread(Idle, NoJob, false, false), Thread(Idle, NoJob, false, false)]
    ensures Trace(ss, acts)
    ensures var s := ss[|acts|];
            && Used(s.ring) == 0 && s.ring.readopen && s.ring.writeopen && s.lock == Free && s.ptable == Free && |s.began| == 2
            && s.threads == [Thread(Off, Reading(1, []), true, false), Thread(Idle, NoJob, false, false)]
  {
    ss, acts := [s0], [];
    var s := With(s0, 0, s0.threads[0].(pc := Enter, job := Reading(1, []))).(began := s0.began[0 := Mine([], 0)]);
    Extend(ss, acts, Begin(0, Reading(1, [])), s);
    ss, acts := ss + [s], acts + [Begin(0, Reading(1, []))];
    s := At(s, 0, Loop).(lock := By(0));
    Extend(ss, acts, Run(0), s);
    ss, acts := ss + [s], acts + [Run(0)];
    s := At(s, 0, SleepTake);
    Extend(ss, acts, Run(0), s);
    ss, acts := ss + [s], acts + [Run(0)];
    s := At(s, 0, SleepDrop).(ptable := By(0));
    Extend(ss, acts, Run(0), s);
    ss, acts := ss + [s], acts + [Run(0)];
    s := At(s, 0, SleepMark).(lock := Free);
    Extend(ss, acts, Run(0), s);
    ss, acts := ss + [s], acts + [Run(0)];
    s := With(s, 0, s.threads[0].(pc := Switch, sleeping := true));
    Extend(ss, acts, Run(0), s);
    ss, acts := ss + [s], acts + [Run(0)];
    s := At(s, 0, Off).(ptable := Free);
    Extend(ss, acts, Run(0), s);
    ss, acts := ss + [s], acts + [Run(0)];
  }

  /** The writer, process 1, in the middle of storing src while 0 sleeps. */
  ghost predicate Storing(s: State, src: seq<byte>, k: nat) {
    && Valid(s.ring) && Used(s.ring) == k && s.ring.readopen && s.lock == By(1) && s.ptable == Free
    && s.threads == [Thread(Off, Reading(1, []), true, false), Thread(Loop, Writing(src, k), false, false)]
  }

  lemma StoreOne(s: State, src: seq<byte>, k: nat) returns (t: State)
    requires Storing(s, src, k) && k < PIPESIZE < |src|
    ensures Next(s, Run(1), t) && Storing(t, src, k + 1)
  {
    TestsExact(s.ring);
    PutAppends(s.ring, src[k]);
    t := WriterStep(s, 1);
  }

  lemma FullWithSleeper(s0: State, src: seq<byte>) returns (ss: seq<State>, acts: seq<Action>)
    requires Init(s0) && s0.threads == [Thread(Idle, NoJob, false, false), Thread(Idle, NoJob, false, false)] && |src| == PIPESIZE + 1
    ensures Trace(ss, acts) && Storing(ss[|acts|], src, PIPESIZE)
  {
    hide Next, Init;
    ss, acts := ReaderAsleep(s0);
    var s, t := WriterEnters(ss[|acts|], src);
    Extend(ss, acts, Begin(1, Writing(src, 0)), s);
    ss, acts := ss + [s], acts + [Begin(1, Writing(src, 0))];
    Extend(ss, acts, Run(1), t);
    ss, acts := ss + [t], acts + [Run(1)];
    var k := 0;
    while k < PIPESIZE
      invariant k <= PIPESIZE && Trace(ss, acts) && Storing(ss[|acts|], src, k)
    {
      t := StoreOne(ss[|acts|], src, k);
      Extend(ss, acts, Run(1), t);
      ss, acts := ss + [t], acts + [Run(1)];
      k := k + 1;
    }
  }

  lemma WriterEnters(r: State, src: seq<byte>) returns (s: State, t: State)
    requires Valid(r.ring) && Used(r.ring) == 0 && r.ring.readopen && r.ring.writeopen
    requires r.lock == Free && r.ptable == Free && |r.began| == 2
    requires r.threads == [Thread(Off, Reading(1, []), true, false), Thread(Idle, NoJob, false, false)]
    ensures Next(r, Begin(1, Writing(src, 0)), s) && Next(s, Run(1), t) && Storing(t, src, 0)
  {
    s := With(r, 1, Thread(Enter, Writing(src, 0), false, false)).(began := r.began[1 := Mine(r.sent, 1)]);
    t := At(s, 1, Loop).(lock := By(1));
  }

  /** The property fails with kill: a run at whose end both locks are free, the
      pipe is full, and the reader sleeps on. */
  lemma KilledWriterStrandsReader(s0: State, src: seq<byte>) returns (ss: seq<State>, acts: seq<Action>)
    requires Init(s0) && s0.threads == [Thread(Idle, NoJob, false, false), Thread(Idle, NoJob, false, false)] && |src| == PIPESIZE + 1
    ensures Trace(ss, acts)
    ensures var s := ss[|acts|];
            && s.lock == Free && s.ptable == Free && Used(s.ring) == PIPESIZE && |s.threads| == 2
            && s.threads[0].sleeping && s.threads[0].job.Reading? && s.threads[1].pc == Idle
  {
    ss, acts := FullWithSleeper(s0, src);
    var s := ss[|acts|];
    TestsExact(s.ring);
    var t := With(s, 1, s.threads[1].(killed := true));
    Extend(ss, acts, Killing(1), t);
    ss, acts := ss + [t], acts + [Killing(1)];
    t := At(t, 1, Leave(-1));
    Extend(ss, acts, Run(1), t);
    ss, acts := ss + [t], acts + [Run(1)];
    t := With(t, 1, t.threads[1].(pc := Idle, job := NoJob)).(lock := Free);
    Extend(ss, acts, Run(1), t);
    ss, acts := ss + [t], acts + [Run(1)];
  }
}
