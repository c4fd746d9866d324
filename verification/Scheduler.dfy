// The queues of a CPU's scheduler as the source keeps them (kernel/scheduler/scheduler.c): two arrays
// whose entries are shifted in place. The scheduler lock is held throughout (see SchedLock).
module Scheduler {
  import opened Options
  import opened SchedRuns
  import opened SchedSpec
  import opened Sequences

  // The fields of struct thread that the scheduler uses; cpu is -1 while the thread is on no run queue.
  datatype Thread = Thread(state: int, duration: int, cpu: int)

  function InfoOf(t: Thread, cpuId: int): Info {
    Info(t.state, t.duration, t.cpu == cpuId)
  }

  function Infos(threads: map<Tid, Thread>, cpuId: int): map<Tid, Info> {
    map t | t in threads :: InfoOf(threads[t], cpuId)
  }

  // The gap-closing loop of sub_dequeue and remove_last.
  method CloseGap<T>(a: array<T>, pos: nat, n: nat)
    requires pos < n <= a.Length
    modifies a
    ensures a[..n - 1] == old(a[..n])[..pos] + old(a[..n])[pos + 1..]
  {
    ghost var was := a[..];
    for i := pos to n - 1
      invariant forall k :: 0 <= k < pos || i <= k < a.Length ==> a[k] == was[k]
      invariant forall k :: pos <= k < i ==> a[k] == was[k + 1]
    {
      a[i] := a[i + 1];
    }
  }

  // The loops of pause and restart that move everything from `pos` up one place.
  method OpenGap<T>(a: array<T>, pos: nat, n: nat)
    requires pos <= n < a.Length
    modifies a
    ensures forall k :: 0 <= k <= pos || n < k < a.Length ==> a[k] == old(a[k])
    ensures forall k :: pos < k <= n ==> a[k] == old(a[k - 1])
  {
    ghost var was := a[..];
    var i := n;
    while i > pos
      invariant pos <= i <= n
      invariant forall k :: 0 <= k <= i || n < k < a.Length ==> a[k] == was[k]
      invariant forall k :: i < k <= n ==> a[k] == was[k - 1]
    {
      a[i] := a[i - 1];
      i := i - 1;
    }
  }

  // The last loop of remove_timers.
  method MoveToStart<T>(a: array<T>, count: nat, n: nat)
    requires count + n <= a.Length
    modifies a
    ensures forall k :: 0 <= k < n ==> a[k] == old(a[k + count])
  {
    ghost var was := a[..];
    for i := 0 to n
      invariant forall k :: 0 <= k < i ==> a[k] == was[k + count]
      invariant forall k :: i <= k < a.Length ==> a[k] == was[k]
    {
      a[i] := a[i + count];
    }
  }

  class SchedulerInfo {
    const cpuId: int
    const schedQueue: array<Tid>
    const pauseQueue: array<Paused>
    var schedCount: nat
    var pauseCount: nat
    var position: nat
    var requesting: Option<Tid>
    var requestedState: int
    var threads: map<Tid, Thread>
    // where the dispatch loop is, and the sleepers that were taken off the run queue (see SchedRuns)
    ghost var phase: Phase
    ghost var slipped: set<Tid>

    ghost predicate Valid()
      reads this
    {
      && schedCount <= schedQueue.Length && pauseCount <= pauseQueue.Length && cpuId >= 0
      && forall t :: t in threads ==> threads[t].cpu == cpuId || threads[t].cpu == -1
    }

    ghost function View(): Queues
      requires Valid()
      reads this, schedQueue, pauseQueue
    {
      Queues(schedQueue[..schedCount], pauseQueue[..pauseCount], position, requesting)
    }

    // The state of the runs in SchedRuns.
    ghost function Abs(): State
      requires Valid()
      reads this, schedQueue, pauseQueue
    {
      State(View(), phase, requestedState, Infos(threads, cpuId), slipped)
    }

    // load_scheduler
    constructor (cpuId: int, size: nat)
      requires cpuId >= 0
      ensures Valid() && Abs() == EMPTY && schedQueue.Length == size && pauseQueue.Length == size
      ensures fresh(schedQueue) && fresh(pauseQueue) && this.cpuId == cpuId
    {
      this.cpuId := cpuId;
      schedQueue := new Tid[size](_ => 0);
      pauseQueue := new Paused[size](_ => Paused(0, 0, 0, 0));
      schedCount, pauseCount, position := 0, 0, 0;
      requesting, requestedState := None, -1;
      threads, phase, slipped := map[], Head, {};
    }

    // sub_queue
    method SubQueue(tr: Tid) returns (ok: bool)
      requires Valid()
      modifies this`schedCount, schedQueue
      ensures Valid() && ok == (old(schedCount) < schedQueue.Length)
      ensures View() == if ok then Queue(old(View()), tr) else old(View())
    {
      if schedCount == schedQueue.Length {
        return false;
      }
      schedQueue[schedCount] := tr;
      schedCount := schedCount + 1;
      ok := true;
    }

    // Where the thread stands in the run queue; schedCount if it does not.
    method Position(tr: Tid) returns (pos: nat)
      requires Valid()
      ensures pos <= schedCount && forall k :: 0 <= k < pos ==> schedQueue[k] != tr
      ensures pos < schedCount ==> schedQueue[pos] == tr
    {
      pos := 0;
      while pos < schedCount && schedQueue[pos] != tr
        invariant pos <= schedCount
        invariant forall k :: 0 <= k < pos ==> schedQueue[k] != tr
      {
        pos := pos + 1;
      }
    }

    // The search and the gap-closing loop that sub_dequeue and remove_last share.
    method Close(tr: Tid) returns (found: bool)
      requires Valid()
      modifies this`schedCount, this`position, schedQueue
      ensures Valid() && found == (tr in old(View()).run)
      ensures View() == Dequeue(old(View()), tr)
    {
      ghost var q := View();
      hide Find, Back, Drop, Dequeue;
      var pos := Position(tr);
      FoundAt(q, tr, pos);
      if pos == schedCount {
        return false;
      }
      CloseGap(schedQueue, pos, schedCount);
      schedCount := schedCount - 1;
      assert schedQueue[..schedCount] == q.run[..pos] + q.run[pos + 1..];
      position := Back(position, schedCount);
      found := true;
    }

    // sub_dequeue; the thread is there, and is not the current one.
    method SubDequeue(tr: Tid)
      requires Valid() && tr in View().run
      modifies this`schedCount, this`position, schedQueue
      ensures Valid() && View() == Dequeue(old(View()), tr)
    {
      var found := Close(tr);
    }

    // pause, by the current thread
    method PauseThread(tr: Tid, milliseconds: nat, now: nat) returns (ok: bool)
      requires Valid() && milliseconds > 0 && tr in threads && threads[tr].state == RUNNING
      modifies this`pauseCount, this`requesting, this`requestedState, this`threads, pauseQueue
      ensures Valid() && ok == (old(pauseCount) < pauseQueue.Length)
      ensures View() == if ok then Pause(old(View()), tr, RUNNING, milliseconds, now) else old(View())
      ensures threads == if ok then old(threads)[tr := old(threads[tr]).(duration := milliseconds)] else old(threads)
      ensures requestedState == if ok then DORMANT else old(requestedState)
      ensures ok && old(Enabled(Abs(), OpPause(tr, milliseconds, now))) ==>
                Abs() == old(Apply(Abs(), OpPause(tr, milliseconds, now)))
    {
      hide Inserted, Infos, Sleepers;
      OfThread(Abs(), threads, tr, cpuId);
      InfosUpdate(threads, tr, threads[tr].(duration := milliseconds), cpuId);
      if pauseCount == pauseQueue.Length {
        return false;
      }
      var target := now + milliseconds;
      ghost var paused := pauseQueue[..pauseCount];
      var pos := 0;
      while pos < pauseCount && pauseQueue[pos].request <= target
        invariant 0 <= pos <= pauseCount
        invariant forall k :: 0 <= k < pos ==> paused[k].request <= target
      {
        pos := pos + 1;
      }
      OpenGap(pauseQueue, pos, pauseCount);
      pauseQueue[pos] := Paused(tr, threads[tr].state, target, now);
      pauseCount := pauseCount + 1;
      PlacedAt(paused, pos, pauseQueue[pos]);
      PutAt(paused, pauseQueue[..pauseCount], pos);
      requesting, requestedState := Some(tr), DORMANT;
      threads := threads[tr := threads[tr].(duration := milliseconds)];
      ok := true;
    }

    // restart
    method RestartThread(tr: Tid) returns (ok: bool)
      requires Valid()
      modifies pauseQueue
      ensures Valid() && ok == (tr in Sleepers(old(View()).paused))
      ensures View() == Restart(old(View()), tr)
    {
      ghost var q := View();
      hide Find, Drop, Restart, Sleepers;
      var pos := 0;
      while pos < pauseCount && pauseQueue[pos].tr != tr
        invariant 0 <= pos <= pauseCount
        invariant forall k :: 0 <= k < pos ==> q.paused[k].tr != tr
      {
        pos := pos + 1;
      }
      RestartedAt(q, tr, pos);
      if pos == pauseCount {
        return false;
      }
      if pos == 0 {
        pauseQueue[0] := pauseQueue[0].(request := 0);
        MovedUp(q.paused, pauseQueue[..pauseCount], 0);
        return true;
      }
      var ps := pauseQueue[pos];
      OpenGap(pauseQueue, 0, pos);
      pauseQueue[0] := ps.(request := 0);
      MovedUp(q.paused, pauseQueue[..pauseCount], pos);
      ok := true;
    }

    // remove_last
    method RemoveLastThread()
      requires Valid() && (requesting.Some? ==> requestedState >= 0 && requesting.value in threads)
      modifies this`schedCount, this`position, this`requesting, this`requestedState, this`threads, schedQueue
      modifies this`phase
      ensures Valid() && View() == RemoveLast(old(View()))
      ensures threads == if old(requesting.Some?) && old(requesting.value) in old(View()).run
                         then old(threads)[old(requesting.value) :=
                                old(threads[requesting.value]).(state := old(requestedState), cpu := -1)]
                         else old(threads)
      ensures old(requesting.Some?) ==> requestedState == -1
      ensures old(Enabled(Abs(), OpRemoveLast)) && (old(requesting.None?) ==> old(requestedState) == -1) ==>
                Abs() == old(Apply(Abs(), OpRemoveLast))
    {
      hide Dequeue, Infos, Sleepers;
      phase := Head;
      if requesting.Some? {
        var tr := requesting.value;
        OfThread(Abs(), threads, tr, cpuId);
        var found := Close(tr);
        if found {
          InfosUpdate(threads, tr, threads[tr].(state := requestedState, cpu := -1), cpuId);
          threads := threads[tr := threads[tr].(state := requestedState, cpu := -1)];
        }
        requesting, requestedState := None, -1;
      }
    }

    // The dispatch of a thread from the run queue.
    method Dispatch() returns (tr: Tid)
      requires Valid() && position < schedCount
      modifies this`position, this`phase
      ensures Valid() && tr == old(schedQueue[position]) && View() == Advance(old(View()))
      ensures old(Enabled(Abs(), OpDispatch)) ==> Abs() == old(Apply(Abs(), OpDispatch))
    {
      tr := schedQueue[position];
      position := (position + 1) % schedCount;
      phase := Executing(tr);
    }

    // The thread's turn ends.
    ghost method Return()
      requires Valid() && phase.Executing?
      modifies this`phase
      ensures Valid() && Abs() == old(Apply(Abs(), OpReturn))
    {
      phase := Returned;
    }

    // set_thread_state, by the thread itself
    method RequestState(tr: Tid, state: int)
      requires Valid() && Enabled(Abs(), OpRequest(tr, state))
      modifies this`requesting, this`requestedState
      ensures Valid() && Abs() == old(Apply(Abs(), OpRequest(tr, state)))
    {
      if state != RUNNING {
        requesting, requestedState := Some(tr), state;
      }
    }

    // go_dormant clears the duration before it sleeps without a time, and when it has slept.
    method ClearDuration(tr: Tid)
      requires Valid() && tr in threads
      modifies this`threads
      ensures Valid() && threads == old(threads)[tr := old(threads[tr]).(duration := 0)]
      ensures old(Enabled(Abs(), OpClear(tr))) ==> Abs() == old(Apply(Abs(), OpClear(tr)))
    {
      threads := threads[tr := threads[tr].(duration := 0)];
    }

    // set_thread_state, by another thread. Nobody looks at the refusal of a full run queue.
    method SetThreadState(tr: Tid, state: int)
      requires Valid() && tr in threads && Enabled(Abs(), OpSet(tr, state))
      modifies this`schedCount, this`position, this`threads, this`slipped, schedQueue, pauseQueue
      ensures Valid()
      ensures old(schedCount < schedQueue.Length || !PutsOn(Abs(), tr, state)) ==>
                Abs() == old(Apply(Abs(), OpSet(tr, state)))
      ensures old(schedCount == schedQueue.Length && PutsOn(Abs(), tr, state)) ==>
                && View() == old(View())
                && threads == old(threads)[tr := old(threads[tr]).(state := RUNNING, cpu := cpuId)]
    {
      hide Restart, Dequeue, Sleepers, Infos;
      ghost var s, was, t := Abs(), threads, threads[tr];
      ghost var cpu := if state == RUNNING then cpuId else if t.state == RUNNING then -1 else t.cpu;
      ghost var u := t.(state := state, cpu := cpu);
      OfThread(s, threads, tr, cpuId);
      InfosUpdate(threads, tr, u, cpuId);
      if threads[tr].state == state { return; }
      if threads[tr].state == DORMANT && threads[tr].duration != 0 {
        var found := RestartThread(tr);
        return;
      }
      if threads[tr].state == RUNNING {
        slipped := if Yields(s, tr) then slipped + {tr} else slipped;
        SubDequeue(tr);
        threads := threads[tr := threads[tr].(cpu := -1)];
      }
      threads := threads[tr := threads[tr].(state := state)];
      if state == RUNNING {
        threads := threads[tr := threads[tr].(cpu := cpuId)];
        var ok := SubQueue(tr);
      }
      assert threads == was[tr := u];
    }

    // The first loop of remove_timers: the due threads go to the run queue, in order.
    method MoveDue(time: nat) returns (count: nat)
      requires Valid() && schedCount + DueCount(View().paused, time) <= schedQueue.Length
      modifies this`schedCount, this`pauseCount, this`threads, schedQueue
      ensures Valid() && count == DueCount(old(View()).paused, time) && count + pauseCount == old(pauseCount)
      ensures schedQueue[..schedCount] == old(View()).run + Sleepers(old(View()).paused[..count])
      ensures Infos(threads, cpuId) == Awake(old(Infos(threads, cpuId)), old(View()).paused[..count], time)
    {
      hide Sleepers, DueCount, Awake, Infos;
      ghost var run, paused := schedQueue[..schedCount], pauseQueue[..pauseCount];
      ghost var infos := Infos(threads, cpuId);
      count := 0;
      NoneYet(infos, paused, time);
      while pauseCount > 0 && pauseQueue[count].request <= time
        invariant 0 <= count && count + pauseCount == |paused| && Valid()
        invariant forall i :: 0 <= i < count ==> paused[i].request <= time
        invariant schedCount == |run| + count && |run| + DueCount(paused, time) <= schedQueue.Length
        invariant schedQueue[..schedCount] == run + Sleepers(paused[..count])
        invariant Infos(threads, cpuId) == Awake(infos, paused[..count], time)
      {
        var e := pauseQueue[count];
        assert e == paused[count];
        MoreDue(paused, count, time);
        OneMore(infos, paused, count, time);
        InfosUpdate(threads, e.tr, Thread(e.state, time - e.start, cpuId), cpuId);
        threads := threads[e.tr := Thread(e.state, time - e.start, cpuId)];
        schedQueue[schedCount] := e.tr;
        schedCount := schedCount + 1;
        count := count + 1;
        pauseCount := pauseCount - 1;
      }
      AllDue(paused, count, time);
    }

    // remove_timers
    method RemoveTimers(time: nat) returns (next: int)
      requires Valid() && Sorted(View().paused)
      requires schedCount + DueCount(View().paused, time) <= schedQueue.Length
      modifies this`schedCount, this`pauseCount, this`threads, this`slipped, schedQueue, pauseQueue
      ensures Valid() && View() == Wake(old(View()), time)
      ensures next == if View().paused == [] then 0 else View().paused[0].request - time
      ensures next >= 0
      ensures Infos(threads, cpuId) ==
              Awake(old(Infos(threads, cpuId)), old(View()).paused[..DueCount(old(View()).paused, time)], time)
      ensures old(Enabled(Abs(), OpTimers(time))) ==> Abs() == old(Apply(Abs(), OpTimers(time)))
    {
      hide Sorted, Sleepers, DueCount, Wake, Awake, Infos, Enabled, Apply;
      ghost var was := Abs();
      ghost var q, infos := View(), Infos(threads, cpuId);
      ghost var paused := q.paused;
      slipped := slipped - set t | t in Sleepers(paused[..DueCount(paused, time)]);
      if pauseCount == 0 {
        NobodyWakes(q, infos, time);
        TimersAre(was, time, Abs());
        return 0;
      }
      DueIndices(paused, time);
      var count := MoveDue(time);
      MoveToStart(pauseQueue, count, pauseCount);
      SuffixIs(paused, pauseQueue[..pauseCount], count);
      WakeIs(q, time, View());
      TimersAre(was, time, Abs());
      next := if pauseCount == 0 then 0 else pauseQueue[0].request - time;
    }
  }

  lemma OfThread(s: State, threads: map<Tid, Thread>, tr: Tid, cpuId: int)
    requires s.info == Infos(threads, cpuId) && tr in threads
    ensures Of(s, tr) == InfoOf(threads[tr], cpuId)
  {
  }

  lemma InfosUpdate(threads: map<Tid, Thread>, tr: Tid, t: Thread, cpuId: int)
    ensures Infos(threads[tr := t], cpuId) == Infos(threads, cpuId)[tr := InfoOf(t, cpuId)]
  {
  }

  lemma FoundAt(q: Queues, tr: Tid, pos: nat)
    requires pos <= |q.run| && forall k :: 0 <= k < pos ==> q.run[k] != tr
    requires pos < |q.run| ==> q.run[pos] == tr
    ensures tr in q.run <==> pos < |q.run|
    ensures Dequeue(q, tr) ==
            if pos == |q.run| then q
            else q.(run := q.run[..pos] + q.run[pos + 1..], position := Back(q.position, |q.run| - 1))
  {
    FindFinds(q.run, tr);
  }

  lemma RestartedAt(q: Queues, tr: Tid, pos: nat)
    requires pos <= |q.paused| && forall k :: 0 <= k < pos ==> q.paused[k].tr != tr
    requires pos < |q.paused| ==> q.paused[pos].tr == tr
    ensures tr in Sleepers(q.paused) <==> pos < |q.paused|
    ensures Restart(q, tr) ==
            if pos == |q.paused| then q
            else q.(paused := [q.paused[pos].(request := 0)] + (q.paused[..pos] + q.paused[pos + 1..]))
  {
    FindFinds(Sleepers(q.paused), tr);
  }

  lemma MovedUp(was: seq<Paused>, now: seq<Paused>, pos: nat)
    requires pos < |was| == |now| && now[0] == was[pos].(request := 0)
    requires forall k :: 0 < k < |now| ==> now[k] == was[if k <= pos then k - 1 else k]
    ensures now == [was[pos].(request := 0)] + (was[..pos] + was[pos + 1..])
  {
  }

  lemma SuffixIs(was: seq<Paused>, now: seq<Paused>, count: nat)
    requires count <= |was| && |now| == |was| - count
    requires forall k :: 0 <= k < |now| ==> now[k] == was[k + count]
    ensures now == was[count..]
  {
  }

  lemma NobodyWakes(q: Queues, infos: map<Tid, Info>, time: nat)
    requires q.paused == []
    ensures Wake(q, time) == q && Awake(infos, q.paused[..DueCount(q.paused, time)], time) == infos
    ensures Sleepers(q.paused[..DueCount(q.paused, time)]) == []
  {
    assert Sleepers([]) == [];
  }

  lemma WakeIs(q: Queues, time: nat, w: Queues)
    requires w.position == q.position && w.requesting == q.requesting
    requires w.run == q.run + Sleepers(q.paused[..DueCount(q.paused, time)])
    requires w.paused == q.paused[DueCount(q.paused, time)..]
    ensures w == Wake(q, time)
  {
  }

  lemma TimersAre(s: State, time: nat, t: State)
    requires t.q == Wake(s.q, time) && t.phase == s.phase && t.asked == s.asked
    requires t.info == Awake(s.info, s.q.paused[..DueCount(s.q.paused, time)], time)
    requires t.slipped == s.slipped - set x | x in Sleepers(s.q.paused[..DueCount(s.q.paused, time)])
    ensures Enabled(s, OpTimers(time)) ==> t == Apply(s, OpTimers(time))
  {
  }

  lemma NoneYet(infos: map<Tid, Info>, paused: seq<Paused>, time: nat)
    ensures Sleepers(paused[..0]) == [] && Awake(infos, paused[..0], time) == infos
  {
  }

  lemma OneMore(infos: map<Tid, Info>, paused: seq<Paused>, k: nat, time: nat)
    requires k < |paused|
    ensures Sleepers(paused[..k + 1]) == Sleepers(paused[..k]) + [paused[k].tr]
    ensures Awake(infos, paused[..k + 1], time) ==
            Awake(infos, paused[..k], time)[paused[k].tr := Info(paused[k].state, time - paused[k].start, true)]
  {
    assert paused[..k + 1] == paused[..k] + [paused[k]];
    AwakeLast(infos, paused[..k], paused[k], time);
  }

  lemma {:induction false} AwakeLast(infos: map<Tid, Info>, woken: seq<Paused>, e: Paused, time: nat)
    ensures Awake(infos, woken + [e], time) == Awake(infos, woken, time)[e.tr := Info(e.state, time - e.start, true)]
    decreases |woken|
  {
    if woken == [] {
      assert woken + [e] == [e];
      assert Awake(infos, [e], time) == Awake(infos[e.tr := Info(e.state, time - e.start, true)], [], time);
    } else {
      assert (woken + [e])[1..] == woken[1..] + [e];
      AwakeLast(infos[woken[0].tr := Info(woken[0].state, time - woken[0].start, true)], woken[1..], e, time);
    }
  }

  lemma MoreDue(paused: seq<Paused>, count: nat, time: nat)
    requires count < |paused| && forall i :: 0 <= i <= count ==> paused[i].request <= time
    ensures count < DueCount(paused, time)
  {
  }

  lemma AllDue(paused: seq<Paused>, count: nat, time: nat)
    requires count <= |paused| && forall i :: 0 <= i < count ==> paused[i].request <= time
    requires count < |paused| ==> paused[count].request > time
    ensures count == DueCount(paused, time)
  {
    var n := DueCount(paused, time);
    assert !(n < count) && !(count < n);
  }

  lemma PutAt(was: seq<Paused>, now: seq<Paused>, pos: nat)
    requires pos <= |was| && |now| == |was| + 1
    requires forall k :: 0 <= k < |now| && k != pos ==> now[k] == was[if k < pos then k else k - 1]
    ensures now == was[..pos] + [now[pos]] + was[pos..]
  {
  }

  lemma PlacedAt(paused: seq<Paused>, pos: nat, e: Paused)
    requires pos <= |paused| && forall k :: 0 <= k < pos ==> paused[k].request <= e.request
    requires pos < |paused| ==> paused[pos].request > e.request
    ensures Inserted(paused, e) == paused[..pos] + [e] + paused[pos..]
  {
    var p := Place(paused, e.request);
    assert !(p < pos) && !(pos < p);
    InsertedAt(paused, e);
  }
}
