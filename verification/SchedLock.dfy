// The halt handshake between sched_lock and the dispatch loop (kernel/scheduler/scheduler.c,
// exec_thread in kernel/processes/threads.c), as interleaved steps of any number of CPUs and threads.
module SchedLock {
  import opened Options

  datatype SchedPc =
    | Stopped        // about to take lock_scheduler: at the start, or back from a thread
    | Dispatching    // holds it and may change the queues
    | Marked         // has set running, still holds it
    | Running        // has given it back; the current thread executes
    | Leaving        // the thread has been switched out, running is still set

  datatype Cpu = Cpu(pc: SchedPc, running: bool, current: Option<nat>, queueChanges: nat)

  datatype Owner = Nobody | Scheduler | Thread(id: nat)

  // `complete` holds from the return of sched_lock(c, 1) to sched_unlock(c).
  datatype Lock = Lock(owner: Owner, flags: bool, complete: bool)

  datatype ThreadPc =
    | Free                                            // outside sched_lock
    | Spin(target: nat, complete: bool, was: bool)    // interrupts off, about to take the target's lock
    | Wait(target: nat)                               // has it, waits for the target's running to be 0

  datatype Thr = Thr(cpu: nat, interrupts: bool, pc: ThreadPc)

  datatype State = State(cpus: seq<Cpu>, locks: seq<Lock>, threads: seq<Thr>)

  datatype Event =
    | TakeLock(c: nat)
    | ChangeQueue(c: nat)
    | Mark(c: nat, t: nat)
    | Resume(c: nat)
    | SwitchOut(c: nat)              // a timer interrupt, a wake-up interrupt, or a yield
    | Halt(c: nat)
    | Ask(t: nat, target: nat, complete: bool)
    | Acquire(t: nat)
    | SeeHalted(t: nat)
    | Unlock(t: nat, target: nat)
    | SetInterrupts(t: nat, on: bool)

  predicate OnCpu(s: State, t: nat) {
    && t < |s.threads| && s.threads[t].cpu < |s.cpus|
    && s.cpus[s.threads[t].cpu].pc.Running? && s.cpus[s.threads[t].cpu].current == Some(t)
  }

  predicate Enabled(s: State, e: Event) {
    |s.locks| == |s.cpus| &&
    match e
    case TakeLock(c) => c < |s.cpus| && s.cpus[c].pc.Stopped? && s.locks[c].owner.Nobody?
    case ChangeQueue(c) => c < |s.cpus| && s.cpus[c].pc.Dispatching?
    case Mark(c, t) => c < |s.cpus| && s.cpus[c].pc.Dispatching? && t < |s.threads| && s.threads[t].cpu == c
    case Resume(c) => c < |s.cpus| && s.cpus[c].pc.Marked?
    case SwitchOut(c) =>
      && c < |s.cpus| && s.cpus[c].pc.Running? && s.cpus[c].current.Some?
      && var t := s.cpus[c].current.value; t < |s.threads| && (s.threads[t].interrupts || s.threads[t].pc.Free?)
    case Halt(c) => c < |s.cpus| && s.cpus[c].pc.Leaving?
    // the assertion at the top of sched_lock: no complete lock of one's own CPU
    case Ask(t, target, complete) =>
      OnCpu(s, t) && s.threads[t].pc.Free? && target < |s.cpus| && !(complete && target == s.threads[t].cpu)
    case Acquire(t) =>
      OnCpu(s, t) && s.threads[t].pc.Spin? && s.threads[t].pc.target < |s.cpus|
      && s.locks[s.threads[t].pc.target].owner.Nobody?
    case SeeHalted(t) =>
      OnCpu(s, t) && s.threads[t].pc.Wait? && s.threads[t].pc.target < |s.cpus|
      && !s.cpus[s.threads[t].pc.target].running
    case Unlock(t, target) =>
      OnCpu(s, t) && s.threads[t].pc.Free? && target < |s.cpus| && s.locks[target].owner == Thread(t)
    case SetInterrupts(t, on) => OnCpu(s, t) && s.threads[t].pc.Free?
  }

  function AtCpu(s: State, c: nat, cpu: Cpu): State
    requires c < |s.cpus|
  {
    s.(cpus := s.cpus[c := cpu])
  }

  function AtLock(s: State, c: nat, lock: Lock): State
    requires c < |s.locks|
  {
    s.(locks := s.locks[c := lock])
  }

  function AtThread(s: State, t: nat, thread: Thr): State
    requires t < |s.threads|
  {
    s.(threads := s.threads[t := thread])
  }

  function Apply(s: State, e: Event): State
    requires Enabled(s, e)
  {
    match e
    case TakeLock(c) =>
      AtLock(AtCpu(s, c, s.cpus[c].(pc := Dispatching)), c, s.locks[c].(owner := Scheduler))
    case ChangeQueue(c) => AtCpu(s, c, s.cpus[c].(queueChanges := s.cpus[c].queueChanges + 1))
    case Mark(c, t) => AtCpu(s, c, s.cpus[c].(pc := Marked, running := true, current := Some(t)))
    case Resume(c) =>
      AtLock(AtCpu(s, c, s.cpus[c].(pc := Running)), c, s.locks[c].(owner := Nobody))
    case SwitchOut(c) => AtCpu(s, c, s.cpus[c].(pc := Leaving))
    case Halt(c) => AtCpu(s, c, s.cpus[c].(pc := Stopped, running := false, current := None))
    case Ask(t, target, complete) =>
      AtThread(s, t, s.threads[t].(interrupts := false, pc := Spin(target, complete, s.threads[t].interrupts)))
    case Acquire(t) =>
      var Spin(target, complete, was) := s.threads[t].pc;
      AtLock(AtThread(s, t, s.threads[t].(pc := if complete then Wait(target) else Free)),
             target, s.locks[target].(owner := Thread(t), flags := was))
    case SeeHalted(t) =>
      var target := s.threads[t].pc.target;
      AtLock(AtThread(s, t, s.threads[t].(pc := Free)), target, s.locks[target].(complete := true))
    case Unlock(t, target) =>
      var on := s.threads[t].interrupts || (target == s.threads[t].cpu && s.locks[target].flags);
      AtLock(AtThread(s, t, s.threads[t].(interrupts := on)),
             target, s.locks[target].(owner := Nobody, complete := false))
    case SetInterrupts(t, on) => AtThread(s, t, s.threads[t].(interrupts := on))
  }

  // An event that is not enabled (a spin that finds the lock taken, say) changes nothing.
  function Step(s: State, e: Event): (s': State)
    ensures |s'.cpus| == |s.cpus| && |s'.locks| == |s.locks| && |s'.threads| == |s.threads|
  {
    if Enabled(s, e) then Apply(s, e) else s
  }

  function Run(s: State, es: seq<Event>): State
    decreases |es|
  {
    if es == [] then s else Run(Step(s, es[0]), es[1..])
  }

  // ---- The invariant ----

  predicate CpuOk(s: State, c: nat)
    requires c < |s.cpus| == |s.locks|
  {
    var cpu, lock := s.cpus[c], s.locks[c];
    && (lock.owner.Scheduler? <==> cpu.pc.Dispatching? || cpu.pc.Marked?)
    && (cpu.running <==> cpu.pc.Marked? || cpu.pc.Running? || cpu.pc.Leaving?)
    && (cpu.running <==> cpu.current.Some?)
    && (cpu.current.Some? ==> cpu.current.value < |s.threads| && s.threads[cpu.current.value].cpu == c)
    && (lock.complete ==> lock.owner.Thread? && cpu.pc.Stopped?)
    && (lock.owner.Thread? ==> lock.owner.id < |s.threads| && s.threads[lock.owner.id].cpu < |s.cpus|)
  }

  // A thread inside sched_lock has its interrupts off and cannot be switched out.
  predicate ThreadOk(s: State, t: nat)
    requires t < |s.threads| && |s.cpus| == |s.locks|
  {
    var thread := s.threads[t];
    && (!thread.pc.Free? ==> !thread.interrupts && OnCpu(s, t) && thread.pc.target < |s.cpus|)
    && (thread.pc.Spin? && thread.pc.complete ==> thread.pc.target != thread.cpu)
    && (thread.pc.Wait? ==>
          && thread.pc.target != thread.cpu
          && s.locks[thread.pc.target].owner == Thread(t) && !s.locks[thread.pc.target].complete)
  }

  ghost predicate Good(s: State) {
    && |s.cpus| == |s.locks|
    && (forall c :: 0 <= c < |s.cpus| ==> CpuOk(s, c))
    && (forall t :: 0 <= t < |s.threads| ==> ThreadOk(s, t))
  }

  // Every CPU is about to enter its scheduler; threads are pinned to CPUs.
  function Init(cpus: nat, homes: seq<nat>): State {
    State(seq(cpus, _ => Cpu(Stopped, false, None, 0)),
          seq(cpus, _ => Lock(Nobody, false, false)),
          seq(|homes|, i requires 0 <= i < |homes| => Thr(homes[i], true, Free)))
  }

  lemma StepKeepsCpus(s: State, e: Event, c: nat)
    requires Good(s) && c < |s.cpus|
    ensures CpuOk(Step(s, e), c)
  {
    if Enabled(s, e) {
      assert CpuOk(s, c);
      match e
      case TakeLock(_) =>
      case Acquire(t) => assert ThreadOk(s, t);
      case SeeHalted(t) => assert ThreadOk(s, t); assert CpuOk(s, s.threads[t].pc.target);
      case _ =>
    }
  }

  lemma StepKeepsThreads(s: State, e: Event, t: nat)
    requires Good(s) && t < |s.threads|
    ensures ThreadOk(Step(s, e), t)
  {
    if Enabled(s, e) {
      assert ThreadOk(s, t);
      match e
      case Resume(c) => assert CpuOk(s, c);
      case Acquire(u) => assert CpuOk(s, s.threads[u].pc.target);
      case SeeHalted(u) => assert ThreadOk(s, u);
      case _ =>
    }
  }

  lemma StepKeeps(s: State, e: Event)
    requires Good(s)
    ensures Good(Step(s, e))
  {
    hide CpuOk, ThreadOk, Apply, Enabled;
    var s' := Step(s, e);
    forall c | 0 <= c < |s.cpus| ensures CpuOk(s', c) { StepKeepsCpus(s, e, c); }
    forall t | 0 <= t < |s.threads| ensures ThreadOk(s', t) { StepKeepsThreads(s, e, t); }
  }

  lemma {:induction false} RunKeeps(s: State, es: seq<Event>)
    requires Good(s)
    ensures Good(Run(s, es))
    decreases |es|
  {
    if es != [] {
      StepKeeps(s, es[0]);
      RunKeeps(Step(s, es[0]), es[1..]);
    }
  }

  lemma StartIsGood(cpus: nat, homes: seq<nat>)
    ensures Good(Init(cpus, homes))
  {
  }

  // ---- The interrupt flag that sched_lock saves ----

  // What the thread itself does, other than waiting for the lock that it asked for.
  predicate Acts(e: Event, t: nat) {
    (e.Ask? || e.Unlock? || e.SetInterrupts?) && e.t == t
  }

  // The flag of before is with the thread while it waits, and with the lock once it has it.
  predicate Saved(s: State, t: nat, target: nat, flag: bool) {
    && t < |s.threads| && target < |s.locks| && !s.threads[t].interrupts
    && match s.threads[t].pc
       case Spin(c, _, was) => c == target && was == flag
       case Wait(c) => c == target && s.locks[target].owner == Thread(t) && s.locks[target].flags == flag
       case Free => s.locks[target].owner == Thread(t) && s.locks[target].flags == flag
  }

  lemma StepSaves(s: State, e: Event, t: nat, target: nat, flag: bool)
    requires Good(s) && Saved(s, t, target, flag) && !Acts(e, t)
    ensures Saved(Step(s, e), t, target, flag) && Step(s, e).threads[t].cpu == s.threads[t].cpu
  {
    if Enabled(s, e) && e.Resume? { assert CpuOk(s, e.c); }
  }

  lemma {:induction false} RunSaves(s: State, es: seq<Event>, t: nat, target: nat, flag: bool)
    requires Good(s) && Saved(s, t, target, flag) && forall e :: e in es ==> !Acts(e, t)
    ensures Saved(Run(s, es), t, target, flag) && Run(s, es).threads[t].cpu == s.threads[t].cpu
    decreases |es|
  {
    hide Good, Saved, Step;
    if es != [] {
      assert es[0] in es && forall e :: e in es[1..] ==> e in es;
      StepSaves(s, es[0], t, target, flag);
      StepKeeps(s, es[0]);
      RunSaves(Step(s, es[0]), es[1..], t, target, flag);
    }
  }

  // From sched_lock to sched_unlock of the same CPU, whatever the others do: the thread has its interrupt
  // flag of before back, exactly if that CPU is its own; after the lock of another CPU they stay off.
  lemma FlagComesBackExactly(cpus: nat, homes: seq<nat>, before: seq<Event>, t: nat, target: nat, complete: bool,
                             between: seq<Event>)
    requires Enabled(Run(Init(cpus, homes), before), Ask(t, target, complete))
    requires forall e :: e in between ==> !Acts(e, t)
    ensures var s := Run(Init(cpus, homes), before);
            var s' := Run(Step(s, Ask(t, target, complete)), between);
            Enabled(s', Unlock(t, target)) ==>
              (Step(s', Unlock(t, target)).threads[t].interrupts <==>
               s.threads[t].interrupts && target == s.threads[t].cpu)
  {
    StartIsGood(cpus, homes);
    RunKeeps(Init(cpus, homes), before);
    var s := Run(Init(cpus, homes), before);
    StepKeeps(s, Ask(t, target, complete));
    RunSaves(Step(s, Ask(t, target, complete)), between, t, target, s.threads[t].interrupts);
    hide Run, Good;
  }

  // ---- A completely locked scheduler is halted ----

  // Thread t has the complete lock of CPU c, which has stood still since that many queue changes.
  predicate Halted(s: State, c: nat, t: nat, queueChanges: nat) {
    && c < |s.cpus| == |s.locks|
    && s.locks[c].complete && s.locks[c].owner == Thread(t)
    && s.cpus[c].pc.Stopped? && !s.cpus[c].running && s.cpus[c].queueChanges == queueChanges
  }

  lemma StepHalted(s: State, e: Event, c: nat, t: nat, queueChanges: nat)
    requires Good(s) && Halted(s, c, t, queueChanges) && e != Unlock(t, c)
    ensures Halted(Step(s, e), c, t, queueChanges)
  {
    assert CpuOk(s, c);
  }

  lemma {:induction false} RunHalted(s: State, es: seq<Event>, c: nat, t: nat, queueChanges: nat)
    requires Good(s) && Halted(s, c, t, queueChanges) && Unlock(t, c) !in es
    ensures Halted(Run(s, es), c, t, queueChanges)
    decreases |es|
  {
    if es != [] {
      StepHalted(s, es[0], c, t, queueChanges);
      StepKeeps(s, es[0]);
      RunHalted(Step(s, es[0]), es[1..], c, t, queueChanges);
    }
  }

  // Whatever led up to it: from the return of a complete sched_lock until the same thread unlocks that
  // CPU, its `running` is 0 and its scheduler changes no queue, whatever the others do.
  lemma HaltedUntilUnlock(cpus: nat, homes: seq<nat>, before: seq<Event>, t: nat, after: seq<Event>)
    requires Enabled(Run(Init(cpus, homes), before), SeeHalted(t))
    requires Unlock(t, Run(Init(cpus, homes), before).threads[t].pc.target) !in after
    ensures var s := Run(Init(cpus, homes), before);
            var c := s.threads[t].pc.target;
            var s' := Run(Step(s, SeeHalted(t)), after);
            Halted(s', c, t, s.cpus[c].queueChanges) && !Enabled(s', ChangeQueue(c))
  {
    StartIsGood(cpus, homes);
    RunKeeps(Init(cpus, homes), before);
    var s := Run(Init(cpus, homes), before);
    var c := s.threads[t].pc.target;
    StepKeeps(s, SeeHalted(t));
    assert CpuOk(s, c) && ThreadOk(s, t);
    RunHalted(Step(s, SeeHalted(t)), after, c, t, s.cpus[c].queueChanges);
  }

  // A thread keeps a lock, complete or not, over every run in which it does not unlock it itself.
  lemma {:induction false} OnlyOwnerUnlocks(s: State, es: seq<Event>, c: nat, t: nat)
    requires Good(s) && c < |s.cpus| && s.locks[c].owner == Thread(t) && Unlock(t, c) !in es
    ensures c < |Run(s, es).locks| && Run(s, es).locks[c].owner == Thread(t)
    decreases |es|
  {
    if es != [] {
      assert CpuOk(s, c);
      StepKeeps(s, es[0]);
      OnlyOwnerUnlocks(Step(s, es[0]), es[1..], c, t);
    }
  }

  // The reason: when a halted CPU is found running later, its scheduler had the lock in between.
  lemma {:induction false} RisesUnderLock(s: State, es: seq<Event>, c: nat)
    requires Good(s) && c < |s.cpus| && !s.cpus[c].running
    requires c < |Run(s, es).cpus| && Run(s, es).cpus[c].running
    ensures exists k :: 0 <= k <= |es| && c < |Run(s, es[..k]).locks| && Run(s, es[..k]).locks[c].owner.Scheduler?
    decreases |es|
  {
    assert CpuOk(s, c);
    if s.locks[c].owner.Scheduler? {
      assert Run(s, es[..0]) == s;
    } else {
      var s' := Step(s, es[0]);
      StepKeeps(s, es[0]);
      RisesUnderLock(s', es[1..], c);
      var rest := es[1..];
      var k :| 0 <= k <= |rest| && c < |Run(s', rest[..k]).locks| && Run(s', rest[..k]).locks[c].owner.Scheduler?;
      assert es[..k + 1][1..] == rest[..k];
      assert Run(s, es[..k + 1]) == Run(s', rest[..k]);
    }
  }

  // ---- When a complete lock is granted ----

  predicate Inside(s: State, t: nat) {
    t < |s.threads| && !s.threads[t].pc.Free?
  }

  ghost predicate CanBeComplete(s: State, c: nat) {
    exists es :: c < |Run(s, es).locks| && Run(s, es).locks[c].complete
  }

  lemma OneStepSooner(s: State, e: Event, c: nat)
    requires CanBeComplete(Step(s, e), c)
    ensures CanBeComplete(s, c)
  {
    var es :| c < |Run(Step(s, e), es).locks| && Run(Step(s, e), es).locks[c].complete;
    assert ([e] + es)[1..] == es;
    assert Run(s, [e] + es) == Run(Step(s, e), es);
  }

  // A waiter gets its lock unless the thread on the target CPU is itself inside sched_lock.
  lemma {:induction false} CanBeGranted(s: State, t: nat)
    requires Good(s) && t < |s.threads| && s.threads[t].pc.Wait? && s.threads[t].pc.target < |s.cpus|
    requires var cpu := s.cpus[s.threads[t].pc.target];
             cpu.pc.Running? && cpu.current.Some? ==> !Inside(s, cpu.current.value)
    ensures CanBeComplete(s, s.threads[t].pc.target)
    decreases s.cpus[s.threads[t].pc.target].running, s.cpus[s.threads[t].pc.target].pc.Running?
  {
    hide Run, CanBeComplete;
    var c := s.threads[t].pc.target;
    assert ThreadOk(s, t) && CpuOk(s, c);
    var e := if s.cpus[c].pc.Running? then SwitchOut(c)
             else if s.cpus[c].pc.Leaving? then Halt(c)
             else SeeHalted(t);
    assert Enabled(s, e);
    StepKeeps(s, e);
    hide Good, CpuOk, ThreadOk;
    if e.SeeHalted? {
      Already(Step(s, e), c);
    } else {
      CanBeGranted(Step(s, e), t);
    }
    OneStepSooner(s, e, c);
  }

  lemma Already(s: State, c: nat)
    requires c < |s.locks| && s.locks[c].complete
    ensures CanBeComplete(s, c)
  {
    assert Run(s, []) == s;
  }

  // ---- When it never is ----

  // The CPU executes one of these threads.
  predicate Occupied(s: State, c: nat, threads: set<nat>) {
    c < |s.cpus| && s.cpus[c].pc.Running? && s.cpus[c].current.Some? && s.cpus[c].current.value in threads
  }

  // One of these threads has the CPU's lock.
  predicate Owned(s: State, c: nat, threads: set<nat>) {
    c < |s.locks| && s.locks[c].owner.Thread? && s.locks[c].owner.id in threads
  }

  // No thread belongs to the CPU, and its scheduler looks for one.
  ghost predicate Deserted(s: State, c: nat) {
    && c < |s.locks| && s.locks[c].owner.Scheduler?
    && forall u :: 0 <= u < |s.threads| ==> s.threads[u].cpu != c
  }

  // What a thread cannot do without one of the blockers moving on: see the target halted; take the
  // target's lock, or see it halted after that; be dispatched on its own CPU.
  ghost predicate Blocked(s: State, t: nat, blockers: set<nat>) {
    && t < |s.threads|
    && match s.threads[t].pc
       case Wait(c) => Occupied(s, c, blockers)
       case Spin(c, complete, _) =>
         Owned(s, c, blockers) || (complete && Occupied(s, c, blockers)) || Deserted(s, c)
       case Free =>
         !OnCpu(s, t) && (Occupied(s, s.threads[t].cpu, blockers) || Owned(s, s.threads[t].cpu, blockers))
  }

  ghost predicate Deadlock(s: State, members: set<nat>) {
    members != {} && forall t :: t in members ==> Blocked(s, t, members)
  }

  lemma StaysOccupied(s: State, e: Event, members: set<nat>, c: nat)
    requires Good(s) && Deadlock(s, members) && Occupied(s, c, members)
    ensures Occupied(Step(s, e), c, members)
  {
    var b := s.cpus[c].current.value;
    assert CpuOk(s, c) && ThreadOk(s, b) && Blocked(s, b, members);
  }

  lemma StaysOwned(s: State, e: Event, members: set<nat>, c: nat)
    requires Good(s) && Deadlock(s, members) && Owned(s, c, members)
    ensures Owned(Step(s, e), c, members)
  {
    var b := s.locks[c].owner.id;
    assert CpuOk(s, c) && ThreadOk(s, b) && Blocked(s, b, members);
  }

  lemma StaysDeserted(s: State, e: Event, c: nat)
    requires Good(s) && Deserted(s, c)
    ensures Deserted(Step(s, e), c)
  {
    assert CpuOk(s, c);
  }

  lemma StaysOffCpu(s: State, e: Event, members: set<nat>, t: nat)
    requires Good(s) && Deadlock(s, members) && t in members && s.threads[t].pc.Free?
    ensures Step(s, e).threads[t] == s.threads[t] && !OnCpu(Step(s, e), t)
  {
    assert Blocked(s, t, members);
    assert s.threads[t].cpu < |s.cpus| ==> CpuOk(s, s.threads[t].cpu);
  }

  lemma StaysInside(s: State, e: Event, members: set<nat>, t: nat)
    requires Good(s) && Deadlock(s, members) && t in members && Inside(s, t)
    ensures var pc, pc' := s.threads[t].pc, Step(s, e).threads[t].pc;
            pc' == pc || (pc.Spin? && pc.complete && Occupied(s, pc.target, members) && pc' == Wait(pc.target))
  {
    assert Blocked(s, t, members);
    assert ThreadOk(s, t);
    assert CpuOk(s, s.threads[t].pc.target);
  }

  lemma StepDeadlock(s: State, e: Event, members: set<nat>, t: nat)
    requires Good(s) && Deadlock(s, members) && t in members
    ensures Blocked(Step(s, e), t, members) && (Inside(s, t) ==> Inside(Step(s, e), t))
  {
    assert Blocked(s, t, members);
    var c := if s.threads[t].pc.Free? then s.threads[t].cpu else s.threads[t].pc.target;
    if s.threads[t].pc.Free? {
      StaysOffCpu(s, e, members, t);
    } else {
      StaysInside(s, e, members, t);
    }
    if Occupied(s, c, members) { StaysOccupied(s, e, members, c); }
    if Owned(s, c, members) { StaysOwned(s, e, members, c); }
    if Deserted(s, c) { StaysDeserted(s, e, c); }
    hide Step, Good, Occupied, Owned, Deserted, OnCpu;
  }

  // Such threads stay inside sched_lock, or off their CPUs, for good.
  lemma {:induction false} DeadlockIsForGood(s: State, es: seq<Event>, members: set<nat>)
    requires Good(s) && Deadlock(s, members)
    ensures Deadlock(Run(s, es), members)
    ensures forall t :: t in members && Inside(s, t) ==> Inside(Run(s, es), t)
    decreases |es|
  {
    if es != [] {
      forall t | t in members
        ensures Blocked(Step(s, es[0]), t, members) && (Inside(s, t) ==> Inside(Step(s, es[0]), t))
      {
        StepDeadlock(s, es[0], members, t);
      }
      StepKeeps(s, es[0]);
      DeadlockIsForGood(Step(s, es[0]), es[1..], members);
    }
  }

  // Two running threads get there by locking each other's CPU completely at the same time.
  lemma CrossLocking(s: State, t: nat, u: nat)
    requires Good(s) && OnCpu(s, t) && OnCpu(s, u) && s.threads[t].pc.Free? && s.threads[u].pc.Free?
    requires s.threads[t].cpu != s.threads[u].cpu
    requires s.locks[s.threads[t].cpu].owner.Nobody? && s.locks[s.threads[u].cpu].owner.Nobody?
    ensures var s1 := Step(Step(s, Ask(t, s.threads[u].cpu, true)), Ask(u, s.threads[t].cpu, true));
            var s2 := Step(Step(s1, Acquire(t)), Acquire(u));
            Deadlock(s2, {t, u}) && Inside(s2, t) && Inside(s2, u)
  {
    hide CpuOk, ThreadOk;
    var c, d := s.threads[t].cpu, s.threads[u].cpu;
    var s1 := Step(s, Ask(t, d, true));
    assert s1 == AtThread(s, t, Thr(c, false, Spin(d, true, s.threads[t].interrupts)));
    var s2 := Step(s1, Ask(u, c, true));
    assert s2 == AtThread(s1, u, Thr(d, false, Spin(c, true, s.threads[u].interrupts)));
    assert OnCpu(s2, t) && OnCpu(s2, u);
    var s3 := Step(s2, Acquire(t));
    assert s3.threads[t].pc == Wait(d) && OnCpu(s3, u) && s3.threads[u] == s2.threads[u];
    var s4 := Step(s3, Acquire(u));
    assert s4.threads[t].pc == Wait(d) && s4.threads[u].pc == Wait(c) && s4.cpus == s.cpus;
  }
}
