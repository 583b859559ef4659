/**
  The work mailbox of src/smp.c and the spinlock of include/spinlock.h, as state
  machines over the single memory accesses of the cores. The release and acquire
  orders make the interleavings of these accesses the executions to consider.
 */
module Mailbox {
  datatype Mbox = IDLE | PENDING | DONE
  datatype Job = Job(fn: nat, arg: nat)

  /** A core that posts a job: the stores of smp_run_on, then the loop and the store of smp_join. */
  datatype Poster = NoJob | ArgStored(job: Job) | FnStored(job: Job) | Posted(job: Job) | SeenDone(job: Job)

  /** The application processor: polling, then the steps of the call and of reporting it. */
  datatype Worker = Polling | Claimed | HasFn(fn: nat) | Calling(fn: nat, arg: nat) | Returned

  datatype Cpu = Cpu(mbox: Mbox, fn: nat, arg: nat, poster: Poster, worker: Worker,
                     posted: seq<Job>, ran: seq<Job>, joined: seq<Job>)

  datatype Step =
    | StoreArg(job: Job) | StoreFn | StorePending | LoadDone | StoreIdle
    | LoadPending | LoadFn | LoadArg | Call | StoreDone

  /** One memory access of one party; a party that is elsewhere in its program does nothing. */
  function Act(c: Cpu, step: Step): Cpu {
    match step
    case StoreArg(job) => if c.poster.NoJob? then c.(arg := job.arg, poster := ArgStored(job)) else c
    case StoreFn => if c.poster.ArgStored? then c.(fn := c.poster.job.fn, poster := FnStored(c.poster.job)) else c
    case StorePending =>
      if c.poster.FnStored? then c.(mbox := PENDING, poster := Posted(c.poster.job),
        posted := c.posted + [c.poster.job]) else c
    case LoadDone => if c.poster.Posted? && c.mbox == DONE then c.(poster := SeenDone(c.poster.job)) else c
    case StoreIdle =>
      if c.poster.SeenDone? then c.(mbox := IDLE, poster := NoJob, joined := c.joined + [c.poster.job]) else c
    case LoadPending => if c.worker.Polling? && c.mbox == PENDING then c.(worker := Claimed) else c
    case LoadFn => if c.worker.Claimed? then c.(worker := HasFn(c.fn)) else c
    case LoadArg => if c.worker.HasFn? then c.(worker := Calling(c.worker.fn, c.arg)) else c
    case Call => if c.worker.Calling? then c.(worker := Returned, ran := c.ran + [Job(c.worker.fn, c.worker.arg)])
      else c
    case StoreDone => if c.worker.Returned? then c.(mbox := DONE, worker := Polling) else c
  }

  /** How far the worker is with job `j`. */
  ghost predicate WorkerOn(c: Cpu, j: Job) {
    && c.fn == j.fn && c.arg == j.arg
    && match c.worker
       case Polling => (c.mbox == PENDING && c.ran == c.joined) || (c.mbox == DONE && c.ran == c.joined + [j])
       case Claimed => c.mbox == PENDING && c.ran == c.joined
       case HasFn(fn) => c.mbox == PENDING && fn == j.fn && c.ran == c.joined
       case Calling(fn, arg) => c.mbox == PENDING && fn == j.fn && arg == j.arg && c.ran == c.joined
       case Returned => c.mbox == PENDING && c.ran == c.joined + [j]
  }

  ghost predicate Ok(c: Cpu) {
    match c.poster
    case NoJob => c.mbox == IDLE && c.worker.Polling? && c.posted == c.ran == c.joined
    case ArgStored(j) => c.mbox == IDLE && c.worker.Polling? && c.posted == c.ran == c.joined && c.arg == j.arg
    case FnStored(j) => c.mbox == IDLE && c.worker.Polling? && c.posted == c.ran == c.joined && c.arg == j.arg &&
      c.fn == j.fn
    case Posted(j) => c.posted == c.joined + [j] && WorkerOn(c, j)
    case SeenDone(j) => c.mbox == DONE && c.worker.Polling? && c.posted == c.ran == c.joined + [j]
  }

  lemma ActOk(c: Cpu, step: Step)
    requires Ok(c)
    ensures Ok(Act(c, step))
  {
  }

  /** N cores; each step is taken on one of them. */
  type System = seq<Cpu>

  function Run(s: System, steps: seq<(nat, Step)>): System
    decreases |steps|
  {
    if steps == [] then s
    else
      var (i, step) := steps[0];
      Run(if i < |s| then s[i := Act(s[i], step)] else s, steps[1..])
  }

  /** Cores that have just booted. */
  ghost predicate Booted(s: System) {
    forall i :: 0 <= i < |s| ==>
         s[i].mbox == IDLE && s[i].poster.NoJob? && s[i].worker.Polling? &&
         s[i].posted == s[i].ran == s[i].joined == []
  }

  ghost predicate AllOk(s: System) {
    forall i {:trigger s[i]} :: 0 <= i < |s| ==> Ok(s[i])
  }

  lemma {:induction false} RunOk(s: System, steps: seq<(nat, Step)>)
    requires AllOk(s)
    ensures AllOk(Run(s, steps)) && |Run(s, steps)| == |s|
    decreases |steps|
  {
    if steps != [] {
      var (i, step) := steps[0];
      if i < |s| {
        ActOk(s[i], step);
      }
      RunOk(if i < |s| then s[i := Act(s[i], step)] else s, steps[1..]);
    }
  }

  /**
    In every interleaving, on every core: the jobs that ran are the jobs posted, with the function and
    argument posted, each once and in order, save perhaps the last; and smp_join has returned only for
    jobs that ran.
   */
  lemma ExactlyOnce(s: System, steps: seq<(nat, Step)>, i: nat)
    requires Booted(s) && i < |s|
    ensures |Run(s, steps)| == |s|
    ensures var c := Run(s, steps)[i];
            && c.joined <= c.ran <= c.posted && |c.posted| <= |c.joined| + 1
            && (c.poster.NoJob? ==> c.joined == c.ran == c.posted)
            && (c.poster.SeenDone? ==> c.ran == c.posted)
  {
    RunOk(s, steps);
    var c := Run(s, steps)[i];
    assert Ok(c);
  }

  /** A posted job is done after the worker's next five accesses, whatever else happens on other cores. */
  lemma JobFinishes(c: Cpu)
    requires Ok(c) && c.poster.Posted? && c.mbox == PENDING && c.worker.Polling?
    ensures var d := Act(Act(Act(Act(Act(c, LoadPending), LoadFn), LoadArg), Call), StoreDone);
            d.mbox == DONE && d.ran == d.posted && Act(d, LoadDone).poster.SeenDone?
  {
  }
}

module Spinlock {
  /** Where a core is in spin_lock and spin_unlock. */
  datatype Pc = Outside | Exchanging | Watching | Inside

  datatype State = State(locked: bool, pc: seq<Pc>)

  datatype Step = Enter | Exchange | Load | Unlock

  function Act(s: State, i: nat, step: Step): State {
    if i >= |s.pc| then s
    else match step
      case Enter => if s.pc[i] == Outside then s.(pc := s.pc[i := Exchanging]) else s
      case Exchange =>
        if s.pc[i] == Exchanging then State(true, s.pc[i := if s.locked then Watching else Inside]) else s
      case Load => if s.pc[i] == Watching && !s.locked then s.(pc := s.pc[i := Exchanging]) else s
      case Unlock => if s.pc[i] == Inside then State(false, s.pc[i := Outside]) else s
  }

  /** The lock is taken exactly when some core is inside, and then only one is. */
  ghost predicate Exclusive(s: State) {
    && (s.locked <==> exists i :: 0 <= i < |s.pc| && s.pc[i] == Inside)
    && forall i, j :: 0 <= i < |s.pc| && 0 <= j < |s.pc| && s.pc[i] == s.pc[j] == Inside ==> i == j
  }

  lemma ActExclusive(s: State, i: nat, step: Step)
    requires Exclusive(s)
    ensures Exclusive(Act(s, i, step))
  {
    var s' := Act(s, i, step);
    if i < |s.pc| {
      forall j | 0 <= j < |s.pc| && j != i ensures s'.pc[j] == s.pc[j] {
      }
      if step == Exchange && s.pc[i] == Exchanging && !s.locked {
        assert s'.pc[i] == Inside;
      }
      if s.locked {
        var k :| 0 <= k < |s.pc| && s.pc[k] == Inside;
        assert !(step == Unlock && s.pc[i] == Inside) ==> s'.pc[k] == Inside;
      }
    }
  }

  function Run(s: State, steps: seq<(nat, Step)>): State
    decreases |steps|
  {
    if steps == [] then s else Run(Act(s, steps[0].0, steps[0].1), steps[1..])
  }

  /** In every interleaving of any number of cores at most one is inside the guarded region. */
  lemma {:induction false} MutualExclusion(s: State, steps: seq<(nat, Step)>)
    requires Exclusive(s)
    ensures Exclusive(Run(s, steps))
    decreases |steps|
  {
    if steps != [] {
      ActExclusive(s, steps[0].0, steps[0].1);
      MutualExclusion(Act(s, steps[0].0, steps[0].1), steps[1..]);
    }
  }

  /** A free lock is taken by the next core that tries. */
  lemma NoDeadlock(s: State, i: nat)
    requires Exclusive(s) && i < |s.pc| && (s.pc[i] == Exchanging || s.pc[i] == Watching)
    requires forall j :: 0 <= j < |s.pc| ==> s.pc[j] != Inside
    ensures Act(Act(s, i, Load), i, Exchange).pc[i] == Inside
  {
  }
}

/**
  The file-system calls of src/ext2.c on several cores: each takes the lock, reads
  and later writes the shared state, and gives the lock back.
 */
module FsLock {
  import S = Spinlock

  /** A core's call in flight, with the state it has read. */
  datatype Call<T> = NotRead | Read(seen: T)
  datatype World<!T> = World(lock: S.State, fs: T, calls: seq<Call<T>>)

  datatype Step<!T> = Lock(step: S.Step) | ReadFs | WriteFs(f: T -> T)

  function Act<T>(w: World<T>, i: nat, step: Step<T>): World<T> {
    if i >= |w.calls| || |w.calls| != |w.lock.pc| then w
    else match step
      case Lock(ls) =>
        var lock' := S.Act(w.lock, i, ls);
        w.(lock := lock', calls := if |lock'.pc| == |w.calls| && lock'.pc[i] == S.Inside then w.calls
          else w.calls[i := NotRead])
      case ReadFs => if w.lock.pc[i] == S.Inside then w.(calls := w.calls[i := Read(w.fs)]) else w
      case WriteFs(f) =>
        if w.lock.pc[i] == S.Inside && w.calls[i].Read? then
          w.(fs := f(w.calls[i].seen), calls := w.calls[i := NotRead]) else w
  }

  /** A core that has read is inside, and what it has read is what is still there. */
  ghost predicate Fresh<T>(w: World<T>) {
    && S.Exclusive(w.lock) && |w.calls| == |w.lock.pc|
    && forall i {:trigger w.calls[i]} :: 0 <= i < |w.calls| && w.calls[i].Read? ==>
       w.lock.pc[i] == S.Inside && w.calls[i].seen == w.fs
  }

  /** No update is lost: a core that writes applies its operation to the state as it stands. */
  lemma ActFresh<T>(w: World<T>, i: nat, step: Step<T>)
    requires Fresh(w)
    ensures Fresh(Act(w, i, step))
    ensures Act(w, i, step).fs != w.fs ==> step.WriteFs? && Act(w, i, step).fs == step.f(w.fs)
  {
    if step.Lock? {
      S.ActExclusive(w.lock, i, step.step);
    }
  }

  /** The states that a run goes through. */
  function Run<T>(w: World<T>, steps: seq<(nat, Step<T>)>): World<T>
    decreases |steps|
  {
    if steps == [] then w else Run(Act(w, steps[0].0, steps[0].1), steps[1..])
  }

  /** The operations that took effect, one after the other, give the final state: calls are serialised. */
  function Effects<T>(w: World<T>, steps: seq<(nat, Step<T>)>): seq<T -> T>
    decreases |steps|
  {
    if steps == [] then []
    else
      var (i, step) := steps[0];
      var took := step.WriteFs? && i < |w.calls| == |w.lock.pc| && w.lock.pc[i] == S.Inside && w.calls[i].Read?;
      (if took then [step.f] else []) + Effects(Act(w, i, step), steps[1..])
  }

  function ApplyAll<T>(fs: T, fns: seq<T -> T>): T
    decreases |fns|
  {
    if fns == [] then fs else ApplyAll(fns[0](fs), fns[1..])
  }

  lemma {:induction false} Serialised<T>(w: World<T>, steps: seq<(nat, Step<T>)>)
    requires Fresh(w)
    ensures Fresh(Run(w, steps)) && Run(w, steps).fs == ApplyAll(w.fs, Effects(w, steps))
    decreases |steps|
  {
    if steps != [] {
      var (i, step) := steps[0];
      ActFresh(w, i, step);
      Serialised(Act(w, i, step), steps[1..]);
      var rest := Effects(Act(w, i, step), steps[1..]);
      var took := step.WriteFs? && i < |w.calls| == |w.lock.pc| && w.lock.pc[i] == S.Inside && w.calls[i].Read?;
      if took {
        assert ([step.f] + rest)[1..] == rest;
      } else {
        assert [] + rest == rest;
      }
    }
  }
}
