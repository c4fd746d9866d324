// When sched_lock can still return: exactly when its caller is in no set of threads that block one
// another. Threads outside such a set can be run to the end, one after the other.
module SchedLockProgress {
  import opened Options
  import opened SchedLock

  ghost predicate Reaches(s: State, s': State) {
    exists es :: Run(s, es) == s'
  }

  lemma {:induction false} RunThen(s: State, es: seq<Event>, more: seq<Event>)
    ensures Run(s, es + more) == Run(Run(s, es), more)
    decreases |es|
  {
    if es == [] {
      assert es + more == more;
    } else {
      assert (es + more)[1..] == es[1..] + more;
      RunThen(Step(s, es[0]), es[1..], more);
    }
  }

  lemma ReachesSelf(s: State)
    ensures Reaches(s, s)
  {
    assert Run(s, []) == s;
  }

  lemma ReachesBoth(s: State, s1: State, s2: State)
    requires Reaches(s, s1) && Reaches(s1, s2)
    ensures Reaches(s, s2)
  {
    var es :| Run(s, es) == s1;
    var more :| Run(s1, more) == s2;
    RunThen(s, es, more);
  }

  lemma ReachesNext(s: State, s1: State, e: Event)
    requires Reaches(s, s1)
    ensures Reaches(s, Step(s1, e))
  {
    assert Run(Step(s1, e), []) == Step(s1, e);
    assert [e][1..] == [];
    assert Run(s1, [e]) == Step(s1, e);
    ReachesBoth(s, s1, Step(s1, e));
  }

  lemma ReachesGood(s: State, s': State)
    requires Good(s) && Reaches(s, s')
    ensures Good(s')
  {
    var es :| Run(s, es) == s';
    RunKeeps(s, es);
  }

  // Some continuation brings the thread out of sched_lock.
  ghost predicate CanReturn(s: State, t: nat) {
    exists es :: t < |Run(s, es).threads| && Run(s, es).threads[t].pc.Free?
  }

  lemma CanReturnLater(s: State, s': State, t: nat)
    requires Reaches(s, s') && CanReturn(s', t)
    ensures CanReturn(s, t)
  {
    var es :| Run(s, es) == s';
    var more :| t < |Run(s', more).threads| && Run(s', more).threads[t].pc.Free?;
    RunThen(s, es, more);
  }

  lemma Returned(s: State, s': State, t: nat)
    requires Reaches(s, s') && t < |s'.threads| && s'.threads[t].pc.Free?
    ensures CanReturn(s, t)
  {
    var es :| Run(s, es) == s';
  }

  // ---- A state that blocks no more than another ----

  // Same threads but for some; those of them that run still run; no lock has a new owner.
  ghost predicate Eased(s: State, s': State, gone: set<nat>) {
    && |s'.cpus| == |s.cpus| && |s'.locks| == |s.locks| && |s'.threads| == |s.threads|
    && (forall u :: 0 <= u < |s.threads| ==> s'.threads[u].cpu == s.threads[u].cpu)
    && (forall u :: 0 <= u < |s.threads| && u !in gone ==> s'.threads[u] == s.threads[u])
    && (forall u :: 0 <= u < |s.threads| && u !in gone && OnCpu(s, u) ==> OnCpu(s', u))
    && (forall c :: 0 <= c < |s.locks| ==> s'.locks[c].owner.Nobody? || s'.locks[c].owner == s.locks[c].owner)
  }

  lemma EasedBoth(s: State, s1: State, s2: State, a: set<nat>, b: set<nat>)
    requires Eased(s, s1, a) && Eased(s1, s2, b)
    ensures Eased(s, s2, a + b)
  {
  }

  lemma StillOccupied(s: State, s': State, gone: set<nat>, members: set<nat>, c: nat)
    requires Good(s) && Good(s') && Eased(s, s', gone) && members !! gone
    requires Deadlock(s', members) && Occupied(s', c, members)
    ensures Occupied(s, c, members)
  {
    var b := s'.cpus[c].current.value;
    assert Blocked(s', b, members) && CpuOk(s', c) && ThreadOk(s, b);
  }

  lemma StillBlocked(s: State, s': State, gone: set<nat>, members: set<nat>, t: nat)
    requires Good(s) && Good(s') && Eased(s, s', gone) && members !! gone
    requires Deadlock(s', members) && t in members
    ensures Blocked(s, t, members)
  {
    assert Blocked(s', t, members);
    var c := if s'.threads[t].pc.Free? then s'.threads[t].cpu else s'.threads[t].pc.target;
    if Occupied(s', c, members) { StillOccupied(s, s', gone, members, c); }
    hide Good, Occupied, OnCpu;
  }

  lemma NoNewDeadlock(s: State, s': State, gone: set<nat>, members: set<nat>)
    requires Good(s) && Good(s') && Eased(s, s', gone) && members !! gone && Deadlock(s', members)
    ensures Deadlock(s, members)
  {
    forall t | t in members ensures Blocked(s, t, members) {
      StillBlocked(s, s', gone, members, t);
    }
  }

  // ---- Every scheduler finishes what it is doing ----

  // The CPU executes a thread, is about to take its lock, or can never find a thread.
  ghost predicate Settled(s: State, c: nat)
    requires c < |s.cpus|
  {
    s.cpus[c].pc.Stopped? || s.cpus[c].pc.Running? || Deserted(s, c)
  }

  ghost predicate AllSettled(s: State) {
    forall c :: 0 <= c < |s.cpus| ==> Settled(s, c)
  }

  // Only this CPU and its lock differ, and no thread owns the lock that did not.
  ghost predicate OnlyAt(s: State, s': State, c: nat) {
    && |s'.cpus| == |s.cpus| && |s'.locks| == |s.locks| && s'.threads == s.threads
    && (forall d :: 0 <= d < |s.cpus| && d != c ==> s'.cpus[d] == s.cpus[d])
    && (forall d :: 0 <= d < |s.locks| && d != c ==> s'.locks[d] == s.locks[d])
    && (c < |s.locks| ==> s'.locks[c].owner.Nobody? || s'.locks[c].owner == s.locks[c].owner)
  }

  lemma SettleCpu(s: State, c: nat) returns (s': State)
    requires Good(s) && c < |s.cpus|
    ensures Reaches(s, s') && Good(s') && OnlyAt(s, s', c) && Settled(s', c)
    ensures s.cpus[c].pc.Running? ==> s' == s
  {
    hide Run, Reaches, ThreadOk;
    ReachesSelf(s);
    s' := s;
    assert CpuOk(s, c);
    if s.cpus[c].pc.Leaving? {
      s' := Step(s, Halt(c));
      ReachesNext(s, s, Halt(c));
    } else if s.cpus[c].pc.Marked? {
      s' := Step(s, Resume(c));
      ReachesNext(s, s, Resume(c));
    } else if s.cpus[c].pc.Dispatching? && !Deserted(s, c) {
      var u :| 0 <= u < |s.threads| && s.threads[u].cpu == c;
      var s1 := Step(s, Mark(c, u));
      s' := Step(s1, Resume(c));
      ReachesNext(s, s, Mark(c, u));
      ReachesNext(s, s1, Resume(c));
    }
    ReachesGood(s, s');
  }

  lemma OnlyAtEases(s: State, s': State, c: nat)
    requires Good(s) && OnlyAt(s, s', c) && (c < |s.cpus| && s.cpus[c].pc.Running? ==> s' == s)
    ensures Eased(s, s', {})
  {
  }

  lemma {:induction false} SettleBelow(s: State, n: nat) returns (s': State)
    requires Good(s) && n <= |s.cpus|
    ensures Reaches(s, s') && Good(s') && Eased(s, s', {}) && s'.threads == s.threads
    ensures forall c :: 0 <= c < n ==> Settled(s', c)
  {
    hide Run, Reaches, CpuOk, ThreadOk, OnCpu;
    if n == 0 {
      s' := s;
      ReachesSelf(s);
    } else {
      var s1 := SettleBelow(s, n - 1);
      s' := SettleCpu(s1, n - 1);
      OnlyAtEases(s1, s', n - 1);
      var none: set<nat> := {};
      EasedBoth(s, s1, s', none, none);
      assert none + none == none;
      ReachesBoth(s, s1, s');
      forall c | 0 <= c < n - 1 ensures Settled(s', c) {
        assert Settled(s1, c);
      }
    }
  }

  // ---- A thread that nothing blocks gets on ----

  // Outside the set, threads are out of sched_lock, execute nowhere, and own no lock.
  ghost predicate Confined(s: State, active: set<nat>) {
    && (forall u :: 0 <= u < |s.threads| && u !in active ==> s.threads[u].pc.Free?)
    && (forall c :: 0 <= c < |s.cpus| && s.cpus[c].pc.Running? && s.cpus[c].current.Some? ==>
          s.cpus[c].current.value in active)
    && (forall c :: 0 <= c < |s.locks| && s.locks[c].owner.Thread? ==> s.locks[c].owner.id in active)
  }

  // Nothing but one thread, one CPU and the locks it takes differ.
  ghost predicate OnlyBy(s: State, s': State, t: nat) {
    && |s'.cpus| == |s.cpus| && |s'.locks| == |s.locks| && |s'.threads| == |s.threads|
    && t < |s.threads| && s'.threads[t].cpu == s.threads[t].cpu
    && (forall u :: 0 <= u < |s.threads| && u != t ==> s'.threads[u] == s.threads[u])
    && (forall c :: 0 <= c < |s.cpus| && c != s.threads[t].cpu ==> s'.cpus[c] == s.cpus[c])
    && (forall c :: 0 <= c < |s.locks| ==>
          s'.locks[c].owner.Nobody? || s'.locks[c].owner == Thread(t) || s'.locks[c].owner == s.locks[c].owner)
  }

  lemma OnlyByBoth(s: State, s1: State, s2: State, t: nat)
    requires OnlyBy(s, s1, t) && OnlyBy(s1, s2, t)
    ensures OnlyBy(s, s2, t)
  {
  }

  // It takes its lock, and sees the target halted.
  lemma ComesOut(s: State, t: nat, active: set<nat>) returns (s': State)
    requires Good(s) && AllSettled(s) && Confined(s, active) && t in active
    requires Inside(s, t) && !Blocked(s, t, active)
    ensures Reaches(s, s') && Good(s') && OnlyBy(s, s', t) && s'.cpus == s.cpus
    ensures s'.threads[t].pc.Free? && OnCpu(s', t)
  {
    hide Run, Reaches;
    assert ThreadOk(s, t);
    var c := s.threads[t].pc.target;
    assert CpuOk(s, c) && Settled(s, c);
    ReachesSelf(s);
    if s.threads[t].pc.Wait? {
      s' := Step(s, SeeHalted(t));
      ReachesNext(s, s, SeeHalted(t));
    } else {
      assert s.locks[c].owner.Nobody?;
      s' := Step(s, Acquire(t));
      ReachesNext(s, s, Acquire(t));
      if s.threads[t].pc.complete {
        ReachesNext(s, s', SeeHalted(t));
        s' := Step(s', SeeHalted(t));
      }
    }
    ReachesGood(s, s');
  }

  // Its CPU dispatches it.
  lemma IsDispatched(s: State, t: nat, active: set<nat>) returns (s': State)
    requires Good(s) && AllSettled(s) && Confined(s, active)
    requires t < |s.threads| && s.threads[t].cpu < |s.cpus| && s.threads[t].pc.Free? && !OnCpu(s, t)
    requires !Blocked(s, t, active)
    ensures Reaches(s, s') && Good(s') && OnlyBy(s, s', t) && s'.threads == s.threads && OnCpu(s', t)
  {
    hide Run, Reaches, ThreadOk;
    var c := s.threads[t].cpu;
    assert CpuOk(s, c) && Settled(s, c);
    var s1 := Step(s, TakeLock(c));
    var s2 := Step(s1, Mark(c, t));
    s' := Step(s2, Resume(c));
    ReachesSelf(s);
    ReachesNext(s, s, TakeLock(c));
    ReachesNext(s, s1, Mark(c, t));
    ReachesNext(s, s2, Resume(c));
    ReachesGood(s, s');
  }

  // It gives back every lock below n.
  lemma {:induction false} GivesBack(s: State, t: nat, n: nat) returns (s': State)
    requires Good(s) && OnCpu(s, t) && s.threads[t].pc.Free? && n <= |s.locks|
    ensures Reaches(s, s') && Good(s') && OnlyBy(s, s', t) && s'.cpus == s.cpus
    ensures s'.threads[t].pc.Free? && OnCpu(s', t)
    ensures forall c :: 0 <= c < n ==> s'.locks[c].owner != Thread(t)
  {
    hide Run, Reaches, Good;
    if n == 0 {
      s' := s;
      ReachesSelf(s);
    } else {
      var s1 := GivesBack(s, t, n - 1);
      s' := Step(s1, Unlock(t, n - 1));
      ReachesNext(s, s1, Unlock(t, n - 1));
      ReachesGood(s, s');
    }
  }

  // It stops executing.
  lemma GoesOff(s: State, t: nat) returns (s': State)
    requires Good(s) && OnCpu(s, t) && s.threads[t].pc.Free?
    ensures Reaches(s, s') && Good(s') && OnlyBy(s, s', t) && s'.locks == s.locks && s'.threads == s.threads
    ensures s'.cpus[s.threads[t].cpu].pc.Stopped?
  {
    hide Run, Reaches, Good;
    var c := s.threads[t].cpu;
    var s1 := Step(s, SwitchOut(c));
    s' := Step(s1, Halt(c));
    ReachesSelf(s);
    ReachesNext(s, s, SwitchOut(c));
    ReachesNext(s, s1, Halt(c));
    ReachesGood(s, s');
  }

  // All of that: the thread is done and out of everybody's way.
  lemma Retire(s: State, t: nat, active: set<nat>) returns (s': State)
    requires Good(s) && AllSettled(s) && Confined(s, active) && t in active
    requires t < |s.threads| && s.threads[t].cpu < |s.cpus| && !Blocked(s, t, active)
    ensures Reaches(s, s') && Good(s') && OnlyBy(s, s', t)
    ensures s'.threads[t].pc.Free? && s'.cpus[s.threads[t].cpu].pc.Stopped?
    ensures forall c :: 0 <= c < |s.locks| ==> s'.locks[c].owner != Thread(t)
  {
    hide Run, Reaches, Good, AllSettled, Blocked, Confined;
    var s1 := s;
    if Inside(s, t) {
      s1 := ComesOut(s, t, active);
    } else if !OnCpu(s, t) {
      s1 := IsDispatched(s, t, active);
    } else {
      ReachesSelf(s);
    }
    var s2 := GivesBack(s1, t, |s.locks|);
    s' := GoesOff(s2, t);
    hide OnCpu;
    ReachesBoth(s, s1, s2);
    ReachesBoth(s, s2, s');
    hide Step;
    OnlyByBoth(s, s1, s2, t);
    OnlyByBoth(s, s2, s', t);
  }

  lemma RetireSettles(s: State, s': State, t: nat, active: set<nat>)
    requires Good(s) && Good(s') && AllSettled(s) && Confined(s, active) && OnlyBy(s, s', t)
    requires s.threads[t].cpu < |s.cpus|
    requires s'.threads[t].pc.Free? && s'.cpus[s.threads[t].cpu].pc.Stopped?
    requires forall c :: 0 <= c < |s.locks| ==> s'.locks[c].owner != Thread(t)
    requires OnCpu(s, t) || !s.cpus[s.threads[t].cpu].pc.Running?
    ensures AllSettled(s') && Confined(s', active - {t}) && Eased(s, s', {t})
  {
    forall c | 0 <= c < |s.cpus| ensures Settled(s', c) {
      assert Settled(s, c) && CpuOk(s, c) && CpuOk(s', c);
    }
    forall c | 0 <= c < |s.cpus| && s'.cpus[c].pc.Running? && s'.cpus[c].current.Some?
      ensures s'.cpus[c].current.value in active - {t}
    {
      assert CpuOk(s', c);
    }
  }

  // ---- A thread in no deadlock comes out ----

  ghost predicate NoDeadlock(s: State, t: nat, active: set<nat>) {
    forall members :: t in members && members <= active ==> !Deadlock(s, members)
  }

  lemma UnblockedCpu(s: State, t: nat, active: set<nat>)
    requires Good(s) && Confined(s, active)
    requires t < |s.threads| && s.threads[t].cpu < |s.cpus| && !Blocked(s, t, active)
    ensures OnCpu(s, t) || !s.cpus[s.threads[t].cpu].pc.Running?
  {
    assert ThreadOk(s, t) && CpuOk(s, s.threads[t].cpu);
  }

  lemma RetireOne(s: State, t: nat, u: nat, active: set<nat>) returns (s': State)
    requires Good(s) && AllSettled(s) && Confined(s, active) && NoDeadlock(s, u, active)
    requires t in active && u in active && t != u && Inside(s, u)
    requires t < |s.threads| && s.threads[t].cpu < |s.cpus| && !Blocked(s, t, active)
    ensures Reaches(s, s') && Good(s') && AllSettled(s') && Confined(s', active - {t})
    ensures NoDeadlock(s', u, active - {t}) && Inside(s', u) && |s'.threads| == |s.threads|
  {
    hide Run, Reaches, AllSettled, Confined, Good, Eased, Blocked, Deadlock, OnCpu;
    s' := Retire(s, t, active);
    UnblockedCpu(s, t, active);
    RetireSettles(s, s', t, active);
    forall members | u in members && members <= active - {t} ensures !Deadlock(s', members) {
      if Deadlock(s', members) {
        NoNewDeadlock(s, s', {t}, members);
      }
    }
  }

  // A thread without a CPU has done nothing and never will.
  lemma Nowhere(s: State, t: nat, active: set<nat>)
    requires Good(s) && Confined(s, active) && t < |s.threads| && s.threads[t].cpu >= |s.cpus|
    ensures Confined(s, active - {t})
  {
    assert ThreadOk(s, t);
    forall c | 0 <= c < |s.cpus| && s.cpus[c].pc.Running? && s.cpus[c].current.Some?
      ensures s.cpus[c].current.value in active - {t}
    {
      assert CpuOk(s, c);
    }
    forall c | 0 <= c < |s.locks| && s.locks[c].owner.Thread?
      ensures s.locks[c].owner.id in active - {t}
    {
      assert CpuOk(s, c);
    }
  }

  lemma {:induction false} Unwind(s: State, t: nat, active: set<nat>)
    requires Good(s) && AllSettled(s) && Confined(s, active) && NoDeadlock(s, t, active)
    requires t in active && Inside(s, t) && forall u :: u in active ==> u < |s.threads|
    ensures CanReturn(s, t)
    decreases |active|
  {
    hide Run, Reaches, CanReturn, AllSettled, Confined, Good, OnlyBy, Blocked;
    assert !Deadlock(s, active);
    var u :| u in active && !Blocked(s, u, active);
    if u == t {
      var s' := ComesOut(s, t, active);
      Returned(s, s', t);
    } else if s.threads[u].cpu < |s.cpus| {
      var s' := RetireOne(s, u, t, active);
      Unwind(s', t, active - {u});
      CanReturnLater(s, s', t);
    } else {
      Nowhere(s, u, active);
      Unwind(s, t, active - {u});
    }
  }

  function Below(n: nat): (all: set<nat>)
    ensures forall u: nat :: u in all <==> u < n
  {
    if n == 0 then {} else Below(n - 1) + {n - 1}
  }

  lemma Frees(s: State, t: nat)
    requires Good(s) && Inside(s, t) && !Stuck(s, t)
    ensures CanReturn(s, t)
  {
    hide Run, Reaches, CanReturn, Good, Deadlock;
    var s' := SettleBelow(s, |s.cpus|);
    var all := Below(|s.threads|);
    forall members | t in members && members <= all ensures !Deadlock(s', members) {
      if Deadlock(s', members) {
        ReachesGood(s, s');
        NoNewDeadlock(s, s', {}, members);
      }
    }
    AllConfined(s', all);
    Unwind(s', t, all);
    CanReturnLater(s, s', t);
  }

  lemma AllConfined(s: State, all: set<nat>)
    requires Good(s) && forall u :: 0 <= u < |s.threads| ==> u in all
    ensures Confined(s, all)
  {
    forall c | 0 <= c < |s.cpus| && s.cpus[c].pc.Running? && s.cpus[c].current.Some?
      ensures s.cpus[c].current.value in all
    {
      assert CpuOk(s, c);
    }
    forall c | 0 <= c < |s.locks| && s.locks[c].owner.Thread? ensures s.locks[c].owner.id in all {
      assert CpuOk(s, c);
    }
  }

  // The thread is one of a set that block one another.
  ghost predicate Stuck(s: State, t: nat) {
    exists members :: t in members && Deadlock(s, members)
  }

  // After any run of any CPUs and threads: a thread inside sched_lock can still come out of it exactly
  // when it is in no deadlock.
  lemma ReturnsExactly(cpus: nat, homes: seq<nat>, es: seq<Event>, t: nat)
    requires Inside(Run(Init(cpus, homes), es), t)
    ensures var s := Run(Init(cpus, homes), es);
            CanReturn(s, t) <==> !Stuck(s, t)
  {
    var s := Run(Init(cpus, homes), es);
    StartIsGood(cpus, homes);
    RunKeeps(Init(cpus, homes), es);
    if !Stuck(s, t) {
      Frees(s, t);
    } else {
      var members :| t in members && Deadlock(s, members);
      forall more ensures Inside(Run(s, more), t) {
        DeadlockIsForGood(s, more, members);
      }
    }
  }

  // ---- The complete lock ----

  // A thread that has the lock and waits for the halt comes out by seeing it.
  lemma {:induction false} ComesOutComplete(s: State, t: nat, es: seq<Event>)
    requires Good(s) && t < |s.threads| && s.threads[t].pc.Wait?
    requires t < |Run(s, es).threads| && Run(s, es).threads[t].pc.Free?
    ensures CanBeComplete(s, s.threads[t].pc.target)
    decreases |es|
  {
    hide CanBeComplete;
    assert ThreadOk(s, t);
    var s' := Step(s, es[0]);
    StepKeeps(s, es[0]);
    if s'.threads[t].pc.Free? {
      Already(s', s.threads[t].pc.target);
    } else {
      ComesOutComplete(s', t, es[1..]);
    }
    OneStepSooner(s, es[0], s.threads[t].pc.target);
  }

  // So a complete lock that is waited for is granted by some continuation, exactly when its waiter is in
  // no deadlock.
  lemma GrantedExactly(cpus: nat, homes: seq<nat>, es: seq<Event>, t: nat)
    requires var s := Run(Init(cpus, homes), es); t < |s.threads| && s.threads[t].pc.Wait?
    ensures var s := Run(Init(cpus, homes), es);
            CanBeComplete(s, s.threads[t].pc.target) <==> !Stuck(s, t)
  {
    hide Good;
    var s := Run(Init(cpus, homes), es);
    var c := s.threads[t].pc.target;
    StartIsGood(cpus, homes);
    RunKeeps(Init(cpus, homes), es);
    ReturnsExactly(cpus, homes, es, t);
    if CanReturn(s, t) {
      var more :| t < |Run(s, more).threads| && Run(s, more).threads[t].pc.Free?;
      ComesOutComplete(s, t, more);
    } else {
      var members :| t in members && Deadlock(s, members);
      forall more ensures !(c < |Run(s, more).locks| && Run(s, more).locks[c].complete) {
        StillWaiting(s, t, more, members);
      }
    }
  }

  lemma {:induction false} StillWaiting(s: State, t: nat, es: seq<Event>, members: set<nat>)
    requires Good(s) && t < |s.threads| && s.threads[t].pc.Wait? && t in members && Deadlock(s, members)
    ensures var c := s.threads[t].pc.target;
            c < |Run(s, es).locks| && !Run(s, es).locks[c].complete
    decreases |es|
  {
    assert ThreadOk(s, t);
    if es != [] {
      StaysInside(s, es[0], members, t);
      DeadlockIsForGood(s, [es[0]], members);
      assert Run(s, [es[0]]) == Step(s, es[0]) by { assert [es[0]][1..] == []; }
      StepKeeps(s, es[0]);
      StillWaiting(Step(s, es[0]), t, es[1..], members);
    }
  }

  // ---- A run that gets there ----

  // CPU 0 dispatches thread 0, CPU 1 thread 1.
  const DISPATCHES := [TakeLock(0), Mark(0, 0), Resume(0), TakeLock(1), Mark(1, 1), Resume(1)]
  const DISPATCHED :=
    State([Cpu(Running, true, Some(0), 0), Cpu(Running, true, Some(1), 0)],
          [Lock(Nobody, false, false), Lock(Nobody, false, false)],
          [Thr(0, true, Free), Thr(1, true, Free)])

  // The run that goes through the given states.
  lemma {:induction false} Through(es: seq<Event>, states: seq<State>)
    requires |states| == |es| + 1 && forall k :: 0 <= k < |es| ==> states[k + 1] == Step(states[k], es[k])
    ensures Run(states[0], es) == states[|es|]
    decreases |es|
  {
    if es != [] {
      Through(es[1..], states[1..]);
    }
  }

  lemma DispatchOne(s: State, c: nat, t: nat)
    requires c < |s.cpus| == |s.locks| && s.cpus[c].pc.Stopped? && s.locks[c].owner.Nobody?
    requires t < |s.threads| && s.threads[t].cpu == c
    ensures Step(Step(Step(s, TakeLock(c)), Mark(c, t)), Resume(c)) ==
            AtCpu(s, c, Cpu(Running, true, Some(t), s.cpus[c].queueChanges))
  {
    var s3 := Step(Step(Step(s, TakeLock(c)), Mark(c, t)), Resume(c));
    assert s3.locks == s.locks;
  }

  lemma Dispatches()
    ensures Run(Init(2, [0, 1]), DISPATCHES) == DISPATCHED
  {
    var s0 := Init(2, [0, 1]);
    DispatchOne(s0, 0, 0);
    var s3 := AtCpu(s0, 0, Cpu(Running, true, Some(0), 0));
    DispatchOne(s3, 1, 1);
    assert AtCpu(s3, 1, Cpu(Running, true, Some(1), 0)) == DISPATCHED;
    hide Step;
    var s1 := Step(s0, DISPATCHES[0]);
    var s4 := Step(s3, DISPATCHES[3]);
    Through(DISPATCHES, [s0, s1, Step(s1, DISPATCHES[1]), s3, s4, Step(s4, DISPATCHES[4]), DISPATCHED]);
  }

  // From the start, two CPUs come to block each other: neither call of sched_lock ever returns.
  lemma CrossLockingReached()
    ensures exists es :: forall more ::
              var s := Run(Run(Init(2, [0, 1]), es), more); Inside(s, 0) && Inside(s, 1)
  {
    Dispatches();
    var crossing := [Ask(0, 1, true), Ask(1, 0, true), Acquire(0), Acquire(1)];
    StartIsGood(2, [0, 1]);
    RunKeeps(Init(2, [0, 1]), DISPATCHES);
    CrossLocking(DISPATCHED, 0, 1);
    var s1 := Step(DISPATCHED, crossing[0]);
    var s2 := Step(s1, crossing[1]);
    var s3 := Step(s2, crossing[2]);
    var s4 := Step(s3, crossing[3]);
    hide Step, Deadlock, Good, Inside;
    Through(crossing, [DISPATCHED, s1, s2, s3, s4]);
    RunThen(Init(2, [0, 1]), DISPATCHES, crossing);
    RunKeeps(DISPATCHED, crossing);
    assert Run(Init(2, [0, 1]), DISPATCHES + crossing) == s4;
    forall more ensures Inside(Run(s4, more), 0) && Inside(Run(s4, more), 1) {
      DeadlockIsForGood(s4, more, {0, 1});
    }
  }
}
