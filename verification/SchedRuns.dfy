// Every run of a CPU's scheduler: the dispatch loop (kernel/scheduler/scheduler.c), what the thread that
// executes asks for, and set_thread_state (kernel/processes/threads.c) on its threads by others.
module SchedRuns {
  import opened Options
  import opened Sequences
  import opened SchedSpec

  // The fields of struct thread that the scheduler reads: its state, how long it sleeps or has slept, and
  // whether its CPU is this one.
  datatype Info = Info(state: int, duration: int, placed: bool)

  const NEW := Info(SUSPENDED, 0, false)

  // Where the dispatch loop is: at its head; while a thread of the run queue executes; before remove_last.
  datatype Phase = Head | Executing(tr: Tid) | Returned

  // `asked` is the state that the requesting thread asked for. `slipped` holds the sleepers that were taken
  // off the run queue by another thread before their own pause was honoured. No operation reads it.
  datatype State =
    State(q: Queues, phase: Phase, asked: int, info: map<Tid, Info>, slipped: set<Tid>)

  datatype Op =
    | OpSet(tr: Tid, state: int)                  // set_thread_state, by another thread
    | OpRequest(tr: Tid, state: int)              // set_thread_state, by the thread itself
    | OpPause(tr: Tid, ms: nat, now: nat)         // go_dormant with a time
    | OpClear(tr: Tid)                            // go_dormant without one, or after it
    | OpTimers(time: nat)                         // remove_timers
    | OpDispatch
    | OpReturn
    | OpRemoveLast

  const EMPTY := State(NO_THREADS, Head, -1, map[], {})

  function Of(s: State, tr: Tid): Info {
    if tr in s.info then s.info[tr] else NEW
  }

  // It sleeps for a time, and its state says so.
  predicate Dreams(i: Info) { i.state == DORMANT && i.duration != 0 }

  // It has paused, and is about to yield.
  predicate Yields(s: State, tr: Tid) {
    s.q.requesting == Some(tr) && tr in Sleepers(s.q.paused)
  }

  // The assertions of the source hold: a thread asks only while it is RUNNING; a dreaming thread can only be
  // set RUNNING, and is found in the pause queue; a thread is taken off the run queue where it is, not while
  // it executes, and put on it when it has no CPU. A thread that has paused yields at once.
  predicate Enabled(s: State, op: Op) {
    match op
    case OpSet(tr, state) =>
      var i := Of(s, tr);
      || i.state == state
      || (if Dreams(i) then state == RUNNING && tr in Sleepers(s.q.paused)
          else
            && (i.state == RUNNING ==> i.placed && tr in s.q.run && s.phase != Executing(tr))
            && (state == RUNNING ==> !i.placed))
    case OpRequest(tr, _) => s.phase == Executing(tr) && !Yields(s, tr) && Of(s, tr).state == RUNNING
    case OpPause(tr, ms, _) => s.phase == Executing(tr) && !Yields(s, tr) && Of(s, tr).state == RUNNING && ms > 0
    case OpClear(tr) => s.phase == Executing(tr) && !Yields(s, tr)
    case OpTimers(_) => s.phase.Head?
    case OpDispatch => s.phase.Head? && s.q.position < |s.q.run|
    case OpReturn => s.phase.Executing?
    case OpRemoveLast => s.phase.Returned?
  }

  // set_thread_state puts the thread on the run queue, or takes it off.
  predicate PutsOn(s: State, tr: Tid, state: int) {
    Of(s, tr).state != RUNNING == state && !Dreams(Of(s, tr))
  }

  predicate TakesOff(s: State, tr: Tid, state: int) {
    Of(s, tr).state == RUNNING != state
  }

  // The woken threads have the state of before their pause, and know how long they slept.
  function Awake(info: map<Tid, Info>, woken: seq<Paused>, time: nat): map<Tid, Info>
    decreases |woken|
  {
    if woken == [] then info
    else Awake(info[woken[0].tr := Info(woken[0].state, time - woken[0].start, true)], woken[1..], time)
  }

  // set_thread_state by another thread.
  function SetState(s: State, tr: Tid, state: int): State {
    var i := Of(s, tr);
    if i.state == state then s
    else if Dreams(i) then s.(q := Restart(s.q, tr))
    else if i.state == RUNNING then
      s.(q := Dequeue(s.q, tr), info := s.info[tr := Info(state, i.duration, false)],
         slipped := if Yields(s, tr) then s.slipped + {tr} else s.slipped)
    else if state == RUNNING then
      s.(q := Queue(s.q, tr), info := s.info[tr := Info(RUNNING, i.duration, true)])
    else s.(info := s.info[tr := i.(state := state)])
  }

  // A request is honoured if the thread is still on the run queue, and dropped if it is not.
  function Honour(s: State): State {
    if s.q.requesting.Some? && s.q.requesting.value in s.q.run then
      var tr := s.q.requesting.value;
      s.(q := RemoveLast(s.q), phase := Head, asked := -1,
         info := s.info[tr := Info(s.asked, Of(s, tr).duration, false)])
    else s.(q := RemoveLast(s.q), phase := Head, asked := -1)
  }

  function Timers(s: State, time: nat): State {
    var woken := s.q.paused[..DueCount(s.q.paused, time)];
    s.(q := Wake(s.q, time), info := Awake(s.info, woken, time),
       slipped := s.slipped - set t | t in Sleepers(woken))
  }

  function Apply(s: State, op: Op): State
    requires Enabled(s, op)
  {
    match op
    case OpSet(tr, state) => SetState(s, tr, state)
    case OpRequest(tr, state) =>
      if state == RUNNING then s else s.(q := s.q.(requesting := Some(tr)), asked := state)
    case OpPause(tr, ms, now) =>
      s.(q := Pause(s.q, tr, RUNNING, ms, now), asked := DORMANT, info := s.info[tr := Of(s, tr).(duration := ms)])
    case OpClear(tr) => s.(info := s.info[tr := Of(s, tr).(duration := 0)])
    case OpTimers(time) => Timers(s, time)
    case OpDispatch => s.(q := Advance(s.q), phase := Executing(s.q.run[s.q.position]))
    case OpReturn => s.(phase := Returned)
    case OpRemoveLast => Honour(s)
  }

  function Step(s: State, op: Op): State {
    if Enabled(s, op) then Apply(s, op) else s
  }

  function Run(s: State, ops: seq<Op>): State
    decreases |ops|
  {
    if ops == [] then s else Run(Step(s, ops[0]), ops[1..])
  }

  // ---- How often each thread stands in the queues ----

  function InRun(s: State): multiset<Tid> { multiset(s.q.run) }

  function Asleep(s: State): multiset<Tid> { multiset(Sleepers(s.q.paused)) }

  function All(s: State): multiset<Tid> { InRun(s) + Asleep(s) }

  function Woken(s: State, time: nat): multiset<Tid> {
    multiset(Sleepers(s.q.paused[..DueCount(s.q.paused, time)]))
  }

  function RunAfter(s: State, op: Op): multiset<Tid> {
    match op
    case OpSet(tr, state) =>
      if PutsOn(s, tr, state) then InRun(s) + multiset{tr}
      else if TakesOff(s, tr, state) then InRun(s) - multiset{tr}
      else InRun(s)
    case OpRemoveLast => if s.q.requesting.Some? then InRun(s) - multiset{s.q.requesting.value} else InRun(s)
    case OpTimers(time) => InRun(s) + Woken(s, time)
    case _ => InRun(s)
  }

  function AsleepAfter(s: State, op: Op): multiset<Tid> {
    match op
    case OpPause(tr, _, _) => Asleep(s) + multiset{tr}
    case OpTimers(time) => Asleep(s) - Woken(s, time)
    case _ => Asleep(s)
  }

  function RequestAfter(s: State, op: Op): Option<Tid> {
    match op
    case OpPause(tr, _, _) => Some(tr)
    case OpRequest(tr, state) => if state == RUNNING then s.q.requesting else Some(tr)
    case OpRemoveLast => None
    case _ => s.q.requesting
  }

  lemma SetConserves(s: State, tr: Tid, state: int)
    ensures var s' := SetState(s, tr, state);
            && InRun(s') == (if PutsOn(s, tr, state) then InRun(s) + multiset{tr}
                             else if TakesOff(s, tr, state) then InRun(s) - multiset{tr}
                             else InRun(s))
            && Asleep(s') == Asleep(s) && s'.q.requesting == s.q.requesting
  {
    hide Sleepers, Restart, Dequeue, Yields;
    DequeueKeeps(s.q, tr);
    DequeueCounts(s.q, tr);
    QueueCounts(s.q, tr);
    RestartCounts(s.q, tr);
  }

  lemma HonourConserves(s: State)
    ensures InRun(Honour(s)) == if s.q.requesting.Some? then InRun(s) - multiset{s.q.requesting.value} else InRun(s)
    ensures Asleep(Honour(s)) == Asleep(s) && Honour(s).q.requesting == None
  {
    hide Sleepers, Dequeue;
    if s.q.requesting.Some? {
      DequeueCounts(s.q, s.q.requesting.value);
      DequeueKeeps(s.q, s.q.requesting.value);
    }
  }

  lemma TimersConserve(s: State, time: nat)
    ensures var s', woken := Timers(s, time), Woken(s, time);
            && InRun(s') == InRun(s) + woken && Asleep(s') == Asleep(s) - woken && woken <= Asleep(s)
            && s'.q.requesting == s.q.requesting
  {
    WakeCounts(s.q, time);
    WakeOrder(s.q, time);
    hide Sleepers, DueCount, Awake, Wake;
  }

  lemma PauseConserves(s: State, tr: Tid, ms: nat, now: nat)
    requires Enabled(s, OpPause(tr, ms, now))
    ensures var s' := Apply(s, OpPause(tr, ms, now));
            InRun(s') == InRun(s) && Asleep(s') == Asleep(s) + multiset{tr} && s'.q.requesting == Some(tr)
  {
    hide Sleepers, Inserted;
    InsertedCounts(s.q.paused, Paused(tr, RUNNING, now + ms, now));
  }

  // Neither queue changes.
  predicate Still(op: Op) {
    op.OpRequest? || op.OpClear? || op.OpDispatch? || op.OpReturn?
  }

  lemma StillConserves(s: State, op: Op)
    requires Enabled(s, op) && Still(op)
    ensures var s' := Apply(s, op);
            InRun(s') == InRun(s) && Asleep(s') == Asleep(s) && s'.q.requesting == RequestAfter(s, op)
  {
  }

  // A thread enters and leaves the queues only as asked. Sleeping, waking and restarting lose nobody, and
  // the thread that goes to sleep stays in the run queue until its request is honoured.
  lemma StepConserves(s: State, op: Op)
    requires Enabled(s, op)
    ensures InRun(Apply(s, op)) == RunAfter(s, op) && Asleep(Apply(s, op)) == AsleepAfter(s, op)
    ensures Apply(s, op).q.requesting == RequestAfter(s, op) && (op.OpTimers? ==> Woken(s, op.time) <= Asleep(s))
  {
    hide SetState, Honour, Timers, InRun, Asleep, Dreams, Yields, Of, Woken;
    if Still(op) {
      StillConserves(s, op);
      hide Apply, Enabled;
    } else {
      match op
      case OpSet(tr, state) => SetConserves(s, tr, state);
      case OpPause(tr, ms, now) =>
        PauseConserves(s, tr, ms, now);
        hide Apply, Enabled;
      case OpTimers(time) => TimersConserve(s, time);
      case OpRemoveLast => HonourConserves(s);
    }
  }

  // ---- What holds in every run ----

  // The pause queue is sorted, and every thread in it is to run when it wakes. A position is in range.
  ghost predicate Ordered(q: Queues) {
    && Sorted(q.paused) && (forall e :: e in q.paused ==> e.state == RUNNING)
    && (if q.run == [] then q.position == 0 else q.position < |q.run|)
  }

  // Only the thread that executes asks for another state, and it leaves its turn with the request.
  predicate Asks(s: State) {
    s.q.requesting.Some? ==>
      s.asked != RUNNING && !s.phase.Head? && (s.phase.Executing? ==> s.q.requesting == Some(s.phase.tr))
  }

  predicate Runs(s: State, tr: Tid) {
    Of(s, tr).state == RUNNING ==> InRun(s)[tr] >= 1
  }

  ghost predicate Always(s: State) {
    Ordered(s.q) && Asks(s) && forall tr :: Runs(s, tr)
  }

  lemma StepOrders(s: State, op: Op)
    requires Enabled(s, op) && Ordered(s.q)
    ensures Ordered(Apply(s, op).q)
  {
    hide Sorted, Sleepers, Wake, Restart, Dequeue, Inserted, DueCount, Awake, Of, Yields, Dreams;
    match op
    case OpSet(tr, _) =>
      DequeueKeeps(s.q, tr);
      RestartSorted(s.q, tr);
      RestartCounts(s.q, tr);
      RestartEntries(s.q, tr);
    case OpPause(tr, ms, now) =>
      var e := Paused(tr, RUNNING, now + ms, now);
      InsertedSorted(s.q.paused, e);
      InsertedCounts(s.q.paused, e);
    case OpRemoveLast =>
      if s.q.requesting.Some? { DequeueKeeps(s.q, s.q.requesting.value); }
    case OpTimers(time) => WakeOrder(s.q, time);
    case _ =>
  }

  lemma StepAsks(s: State, op: Op)
    requires Enabled(s, op) && Asks(s)
    ensures Asks(Apply(s, op))
  {
    StepConserves(s, op);
    hide Sleepers, Wake, Restart, Dequeue, Inserted, DueCount, Awake, Of, Yields, Dreams, InRun, Asleep;
  }

  // A thread that wakes is RUNNING again. The others do not change.
  lemma {:induction false} AwakeRuns(info: map<Tid, Info>, woken: seq<Paused>, time: nat, tr: Tid)
    requires forall e :: e in woken ==> e.state == RUNNING
    ensures var info' := Awake(info, woken, time);
            if tr in Sleepers(woken) then tr in info' && info'[tr].state == RUNNING && info'[tr].placed
            else (tr in info' <==> tr in info) && (tr in info ==> info'[tr] == info[tr])
    decreases |woken|
  {
    FirstSleeper(woken, tr);
    hide Sleepers;
    if woken != [] {
      var u := Info(woken[0].state, time - woken[0].start, true);
      AwakeRuns(info[woken[0].tr := u], woken[1..], time, tr);
      assert woken[0] in woken;
    }
  }

  lemma FirstSleeper(paused: seq<Paused>, tr: Tid)
    ensures tr in Sleepers(paused) <==> paused != [] && (tr == paused[0].tr || tr in Sleepers(paused[1..]))
  {
    if paused != [] {
      assert Sleepers(paused) == [paused[0].tr] + Sleepers(paused[1..]);
    }
  }

  lemma TimersWake(s: State, time: nat, tr: Tid)
    requires Ordered(s.q)
    ensures var i := Of(Timers(s, time), tr);
            if Woken(s, time)[tr] > 0 then i.state == RUNNING && i.placed else i == Of(s, tr)
  {
    var woken := s.q.paused[..DueCount(s.q.paused, time)];
    hide DueCount, Sleepers, Awake;
    AwakeRuns(s.info, woken, time, tr);
  }

  lemma StepRuns(s: State, op: Op, tr: Tid)
    requires Enabled(s, op) && Ordered(s.q) && Asks(s) && Runs(s, tr)
    ensures Runs(Apply(s, op), tr)
  {
    hide Runs, SetState, Honour, Timers, Ordered, Asks, InRun, Asleep, Of, Dreams, Yields;
    match op
    case OpSet(t, state) => SetRuns(s, t, state, tr);
    case OpTimers(time) => TimersRun(s, time, tr);
    case OpRemoveLast => HonourRuns(s, tr);
    case _ =>
      StillRuns(s, op, tr);
      hide Apply, Enabled;
  }

  lemma StillRuns(s: State, op: Op, tr: Tid)
    requires Enabled(s, op) && (Still(op) || op.OpPause?) && Runs(s, tr)
    ensures Runs(Apply(s, op), tr)
  {
    assert Apply(s, op).q.run == s.q.run;
    hide InRun, Yields, Inserted;
  }

  lemma SetRuns(s: State, t: Tid, state: int, tr: Tid)
    requires Runs(s, tr)
    ensures Runs(SetState(s, t, state), tr)
  {
    SetConserves(s, t, state);
    hide InRun, Asleep, Yields, Restart, Dequeue;
  }

  lemma TimersRun(s: State, time: nat, tr: Tid)
    requires Ordered(s.q) && Runs(s, tr)
    ensures Runs(Timers(s, time), tr)
  {
    TimersConserve(s, time);
    TimersWake(s, time, tr);
    hide InRun, Asleep, Timers, Of, Woken, Ordered;
  }

  lemma HonourRuns(s: State, tr: Tid)
    requires Asks(s) && Runs(s, tr)
    ensures Runs(Honour(s), tr)
  {
    HonourConserves(s);
    RunsIn(s, tr);
    hide InRun, Asleep, Dequeue;
  }

  lemma HonourStep(s: State)
    requires Enabled(s, OpRemoveLast)
    ensures Apply(s, OpRemoveLast) == Honour(s)
  {
  }

  lemma RunsIn(s: State, tr: Tid)
    ensures tr in s.q.run <==> InRun(s)[tr] > 0
  {
  }

  lemma StepAlways(s: State, op: Op)
    requires Enabled(s, op) && Always(s)
    ensures Always(Apply(s, op))
  {
    hide Apply, Enabled, Runs, Ordered, Asks;
    StepOrders(s, op);
    StepAsks(s, op);
    forall tr ensures Runs(Apply(s, op), tr) {
      assert Runs(s, tr);
      StepRuns(s, op, tr);
    }
  }

  // ---- Each thread in its place ----

  // A thread is on the run queue once while it is RUNNING, and else not. It sleeps at most once, and then
  // either its request is pending, or its state says that it sleeps, or another thread has taken it off the
  // run queue before its request was honoured.
  predicate InPlace(s: State, tr: Tid) {
    var i, asleep := Of(s, tr), Asleep(s)[tr];
    && InRun(s)[tr] == (if i.state == RUNNING then 1 else 0) && (i.placed <==> i.state == RUNNING)
    && (s.phase == Executing(tr) ==> i.state == RUNNING)
    && asleep <= 1 && (tr in s.slipped ==> asleep == 1)
    && (asleep == 1 ==>
          && i.duration != 0
          && (if s.q.requesting == Some(tr) then s.asked == DORMANT else i.state != RUNNING)
          && (i.state in {RUNNING, DORMANT} || tr in s.slipped))
  }

  ghost predicate Good(s: State) {
    Always(s) && forall tr :: InPlace(s, tr)
  }

  // A thread is set RUNNING that another has taken off the run queue in the middle of its pause, and that
  // still sleeps.
  predicate Requeues(s: State, op: Op) {
    op.OpSet? && PutsOn(s, op.tr, op.state) && op.tr in s.slipped && s.q.requesting != Some(op.tr)
  }

  lemma YieldsAsleep(s: State, tr: Tid)
    ensures Yields(s, tr) <==> s.q.requesting == Some(tr) && Asleep(s)[tr] >= 1
  {
    hide Sleepers;
  }

  lemma SetInPlace(s: State, op: Op, tr: Tid)
    requires Enabled(s, op) && op.OpSet? && !Requeues(s, op) && InPlace(s, tr)
    ensures InPlace(Apply(s, op), tr)
  {
    StepConserves(s, op);
    YieldsAsleep(s, tr);
    hide InRun, Asleep, Sleepers, Restart, Dequeue, Yields;
  }

  lemma TimersInPlace(s: State, op: Op, tr: Tid)
    requires Enabled(s, op) && op.OpTimers? && Ordered(s.q) && Asks(s) && InPlace(s, tr)
    ensures InPlace(Apply(s, op), tr)
  {
    StepConserves(s, op);
    TimersWake(s, op.time, tr);
    var woken := s.q.paused[..DueCount(s.q.paused, op.time)];
    assert tr in Sleepers(woken) <==> Woken(s, op.time)[tr] > 0 by { hide Sleepers; }
    hide InRun, Asleep, Sleepers, Woken, Ordered, Awake, Of, DueCount;
  }

  lemma HonourInPlace(s: State, tr: Tid)
    requires Asks(s) && Runs(s, tr) && InPlace(s, tr)
    ensures InPlace(Honour(s), tr)
  {
    HonourConserves(s);
    RunsIn(s, tr);
    hide InRun, Asleep, Dequeue;
  }

  lemma OthersInPlace(s: State, op: Op, tr: Tid)
    requires Enabled(s, op) && !op.OpSet? && !op.OpTimers? && !op.OpRemoveLast?
    requires Ordered(s.q) && Asks(s) && InPlace(s, tr)
    ensures InPlace(Apply(s, op), tr)
  {
    StepConserves(s, op);
    if op.OpRequest? || op.OpPause? || op.OpClear? { YieldsAsleep(s, op.tr); }
    hide Asleep, Sleepers, Yields, Inserted, Ordered, Dreams;
  }

  lemma StepKeeps(s: State, op: Op)
    requires Good(s) && Enabled(s, op) && !Requeues(s, op)
    ensures Good(Apply(s, op))
  {
    hide Apply, Enabled, Runs, Ordered, Asks, InPlace, Requeues;
    StepAlways(s, op);
    forall tr ensures InPlace(Apply(s, op), tr) {
      assert InPlace(s, tr) && Runs(s, tr);
      if op.OpSet? {
        SetInPlace(s, op, tr);
      } else if op.OpTimers? {
        TimersInPlace(s, op, tr);
      } else if op.OpRemoveLast? {
        HonourStep(s);
        HonourInPlace(s, tr);
      } else {
        OthersInPlace(s, op, tr);
      }
    }
  }

  // Every thread is in at most one queue, once, but for the one whose request is pending.
  ghost predicate OnceOnly(s: State) {
    forall tr :: All(s)[tr] <= if s.q.requesting == Some(tr) then 2 else 1
  }

  lemma InPlaceOnce(s: State)
    requires Good(s)
    ensures OnceOnly(s)
  {
    hide InRun, Asleep, Always, Of;
    forall tr ensures All(s)[tr] <= if s.q.requesting == Some(tr) then 2 else 1 {
      assert InPlace(s, tr);
    }
  }

  lemma RequeueBreaks(s: State, op: Op)
    requires Good(s) && Enabled(s, op) && Requeues(s, op)
    ensures !OnceOnly(Apply(s, op))
  {
    assert InPlace(s, op.tr);
    StepConserves(s, op);
    hide InRun, Asleep, Always, Of, Apply, Enabled;
    assert All(Apply(s, op))[op.tr] >= 2;
  }

  // Some step of the run does it.
  predicate Requeued(s: State, ops: seq<Op>)
    decreases |ops|
  {
    ops != [] && ((Enabled(s, ops[0]) && Requeues(s, ops[0])) || Requeued(Step(s, ops[0]), ops[1..]))
  }

  lemma RunFrom(s: State, ops: seq<Op>, k: nat)
    requires 0 < k <= |ops|
    ensures Run(s, ops[..k]) == Run(Step(s, ops[0]), ops[1..][..k - 1])
  {
    assert ops[..k][1..] == ops[1..][..k - 1];
  }

  lemma {:induction false} OnceExactly(s: State, ops: seq<Op>)
    requires Good(s)
    ensures (forall k :: 0 <= k <= |ops| ==> OnceOnly(Run(s, ops[..k]))) <==> !Requeued(s, ops)
    decreases |ops|
  {
    hide Good, OnceOnly, Enabled, Requeues, Apply;
    InPlaceOnce(s);
    assert Run(s, ops[..0]) == s;
    if ops != [] {
      var op, s' := ops[0], Step(s, ops[0]);
      forall k | 0 < k <= |ops| ensures Run(s, ops[..k]) == Run(s', ops[1..][..k - 1]) { RunFrom(s, ops, k); }
      if Enabled(s, op) && Requeues(s, op) {
        RequeueBreaks(s, op);
        assert Run(s, ops[..1]) == s';
      } else {
        if Enabled(s, op) { StepKeeps(s, op); }
        OnceExactly(s', ops[1..]);
        assert forall k :: 0 <= k <= |ops[1..]| ==> Run(s', ops[1..][..k]) == Run(s, ops[..k + 1]);
      }
    }
  }

  lemma {:induction false} RunAlways(s: State, ops: seq<Op>)
    requires Always(s)
    ensures Always(Run(s, ops))
    decreases |ops|
  {
    hide Always, Apply, Enabled;
    if ops != [] {
      if Enabled(s, ops[0]) { StepAlways(s, ops[0]); }
      RunAlways(Step(s, ops[0]), ops[1..]);
    }
  }

  lemma EmptyIsGood()
    ensures Good(EMPTY)
  {
  }

  // Over every run the pause queue is sorted and the position in range. Every thread is in at most one
  // queue, once, or in both while its request is pending, all along the run exactly when no thread is set
  // RUNNING that still sleeps after another took it off the run queue in the middle of its pause.
  lemma EveryRun(ops: seq<Op>)
    ensures Ordered(Run(EMPTY, ops).q)
    ensures (forall k :: 0 <= k <= |ops| ==> OnceOnly(Run(EMPTY, ops[..k]))) <==> !Requeued(EMPTY, ops)
  {
    EmptyIsGood();
    hide Good, OnceOnly, Ordered, Requeued;
    OnceExactly(EMPTY, ops);
    assert Always(EMPTY) by { GoodIsAlways(EMPTY); }
    RunAlways(EMPTY, ops);
  }

  lemma GoodIsAlways(s: State)
    requires Good(s)
    ensures Always(s)
  {
  }

  lemma Twice(s: seq<Tid>, i: nat, j: nat)
    requires i < j < |s| && s[i] == s[j]
    ensures multiset(s)[s[i]] >= 2
  {
    assert s[..j][i] == s[j];
    assert s == s[..j] + ([s[j]] + s[j + 1..]);
    assert multiset(s)[s[j]] == multiset(s[..j])[s[j]] + 1 + multiset(s[j + 1..])[s[j]];
  }

  // Once the request is honoured, the queues hold no thread twice.
  lemma OnceEach(s: State)
    requires OnceOnly(s) && s.q.requesting.None?
    ensures Distinct(s.q.run + Sleepers(s.q.paused))
  {
    var ts := s.q.run + Sleepers(s.q.paused);
    assert multiset(ts) == All(s);
    forall i, j | 0 <= i < j < |ts| ensures ts[i] != ts[j] {
      if ts[i] == ts[j] { Twice(ts, i, j); }
    }
  }

  // The run that goes through the given states.
  lemma {:induction false} Through(ops: seq<Op>, states: seq<State>)
    requires |states| == |ops| + 1 && forall k :: 0 <= k < |ops| ==> states[k + 1] == Step(states[k], ops[k])
    ensures Run(states[0], ops) == states[|ops|]
    decreases |ops|
  {
    if ops != [] {
      Through(ops[1..], states[1..]);
    }
  }

  lemma {:induction false} RunJoins(s: State, a: seq<Op>, b: seq<Op>)
    ensures Run(s, a + b) == Run(Run(s, a), b)
    decreases |a|
  {
    if a == [] {
      assert a + b == b;
    } else {
      assert (a + b)[1..] == a[1..] + b;
      RunJoins(Step(s, a[0]), a[1..], b);
    }
  }

  const PAUSES := [OpSet(1, RUNNING), OpDispatch, OpPause(1, 5, 0), OpReturn]
  const PAUSED :=
    State(Queues([1], [Paused(1, RUNNING, 5, 0)], 0, Some(1)), Returned, DORMANT, map[1 := Info(RUNNING, 5, true)], {})

  lemma Pauses()
    ensures Run(EMPTY, PAUSES) == PAUSED
  {
    var s1 := State(Queues([1], [], 0, None), Head, -1, map[1 := Info(RUNNING, 0, true)], {});
    assert Step(EMPTY, PAUSES[0]) == s1 by { assert s1.q.run == [] + [1]; }
    var s2 := s1.(phase := Executing(1));
    assert Step(s1, PAUSES[1]) == s2;
    var s3 := PAUSED.(phase := Executing(1));
    assert Step(s2, PAUSES[2]) == s3 by { assert s2.info[1 := Info(RUNNING, 5, true)] == s3.info; }
    assert Step(s3, PAUSES[3]) == PAUSED;
    hide Step;
    Through(PAUSES, [EMPTY, s1, s2, s3, PAUSED]);
  }

  const SUSPENDS := [OpSet(1, SUSPENDED), OpRemoveLast]
  const SLIPPED :=
    State(Queues([], [Paused(1, RUNNING, 5, 0)], 0, None), Head, -1, map[1 := Info(SUSPENDED, 5, false)], {1})

  lemma Suspends()
    ensures Run(PAUSED, SUSPENDS) == SLIPPED
  {
    var e := Paused(1, RUNNING, 5, 0);
    var s1 := SLIPPED.(q := Queues([], [e], 0, Some(1)), phase := Returned, asked := DORMANT);
    assert Step(PAUSED, SUSPENDS[0]) == s1 by {
      assert Sleepers([e])[0] == 1;
      assert Drop([1], 0) == [];
      assert PAUSED.info[1 := Info(SUSPENDED, 5, false)] == s1.info;
    }
    assert Step(s1, SUSPENDS[1]) == SLIPPED;
    hide Step;
    Through(SUSPENDS, [PAUSED, s1, SLIPPED]);
  }

  // Before the request of its pause is honoured, another thread suspends it, and later sets it RUNNING. It
  // is then on the run queue while it sleeps, and no request is pending.
  lemma SleeperQueued()
    ensures var s := Run(EMPTY, PAUSES + SUSPENDS);
            && Requeued(s, [OpSet(1, RUNNING)])
            && var q := Run(s, [OpSet(1, RUNNING)]).q;
               q.run == [1] && Sleepers(q.paused) == [1] && q.requesting == None
  {
    RunJoins(EMPTY, PAUSES, SUSPENDS);
    Pauses();
    Suspends();
    assert Step(SLIPPED, OpSet(1, RUNNING)).q == Queues([1], SLIPPED.q.paused, 0, None);
    assert Run(SLIPPED, [OpSet(1, RUNNING)]) == Step(SLIPPED, OpSet(1, RUNNING));
  }

  // Nobody sets a thread RUNNING that another has set to some other state before.
  predicate Settled(ops: seq<Op>) {
    forall i, j :: 0 <= i < j < |ops| && ops[i].OpSet? && ops[i].state != RUNNING ==>
      ops[j] != OpSet(ops[i].tr, RUNNING)
  }

  lemma StepSlips(s: State, op: Op, tr: Tid)
    requires Enabled(s, op) && tr in Apply(s, op).slipped
    ensures tr in s.slipped || (op.OpSet? && op.tr == tr && op.state != RUNNING)
  {
    hide Sleepers, DueCount, Awake;
  }

  // Such callers, the garbage collector with its FINISHED threads among them, never do it.
  lemma {:induction false} NeverRequeued(s: State, ops: seq<Op>)
    requires Settled(ops) && forall tr :: tr in s.slipped ==> OpSet(tr, RUNNING) !in ops
    ensures !Requeued(s, ops)
    decreases |ops|
  {
    hide Enabled, Apply;
    if ops != [] {
      var op, rest := ops[0], ops[1..];
      assert ops == [op] + rest;
      assert op in ops;
      forall tr | tr in Step(s, op).slipped ensures OpSet(tr, RUNNING) !in rest {
        if Enabled(s, op) { StepSlips(s, op, tr); }
      }
      NeverRequeued(Step(s, op), rest);
    }
  }

  // ---- The assertions of the source hold ----

  lemma {:induction false} RunGood(s: State, ops: seq<Op>)
    requires Good(s) && !Requeued(s, ops)
    ensures Good(Run(s, ops))
    decreases |ops|
  {
    hide Good, Enabled, Requeues, Apply;
    if ops != [] {
      if Enabled(s, ops[0]) { StepKeeps(s, ops[0]); }
      RunGood(Step(s, ops[0]), ops[1..]);
    }
  }

  // After any run without such a step: a thread that executes, and has not asked for anything, may ask for
  // a state, pause for any time but 0, and clear its duration; another may be set to any state, unless it
  // dreams, and a dreaming one that is in the pause queue may be set RUNNING.
  lemma NothingHalts(ops: seq<Op>, tr: Tid, state: int, ms: nat, now: nat)
    requires !Requeued(EMPTY, ops)
    ensures var s := Run(EMPTY, ops);
            && (s.phase == Executing(tr) && s.q.requesting == None ==>
                  && InRun(s)[tr] == 1 && Enabled(s, OpRequest(tr, state)) && Enabled(s, OpClear(tr))
                  && (Enabled(s, OpPause(tr, ms, now)) <==> ms > 0))
            && (s.phase != Executing(tr) && !Dreams(Of(s, tr)) ==> Enabled(s, OpSet(tr, state)))
            && (Dreams(Of(s, tr)) && tr in Sleepers(s.q.paused) ==> Enabled(s, OpSet(tr, RUNNING)))
  {
    EmptyIsGood();
    RunGood(EMPTY, ops);
    var s := Run(EMPTY, ops);
    assert InPlace(s, tr);
    RunsIn(s, tr);
    hide Run, Always, InRun, Asleep;
  }

  // What a thread asks for becomes its state when its turn ends, and it is off the run queue then.
  lemma RequestIsHonoured(ops: seq<Op>, tr: Tid, state: int)
    requires !Requeued(EMPTY, ops) && state != RUNNING
    requires var s := Run(EMPTY, ops); s.phase == Executing(tr) && s.q.requesting == None
    ensures Enabled(Run(EMPTY, ops), OpRequest(tr, state))
    ensures var s := Apply(Run(EMPTY, ops), OpRequest(tr, state));
            var s' := Apply(Apply(s, OpReturn), OpRemoveLast);
            Of(s', tr).state == state && InRun(s')[tr] == 0 && s'.q.requesting == None && s'.phase == Head
  {
    NothingHalts(ops, tr, state, 0, 0);
    EmptyIsGood();
    RunGood(EMPTY, ops);
    var s := Run(EMPTY, ops);
    hide Run;
    assert InPlace(s, tr);
    hide InPlace, Always;
    var s1 := Apply(s, OpRequest(tr, state)).(phase := Returned);
    assert InRun(s1) == InRun(s) && Apply(Apply(s, OpRequest(tr, state)), OpReturn) == s1;
    LeavesAsAsked(s1, tr);
    HonourStep(s1);
  }

  lemma LeavesAsAsked(s: State, tr: Tid)
    requires s.q.requesting == Some(tr) && InRun(s)[tr] == 1
    ensures var s' := Honour(s);
            Of(s', tr).state == s.asked && InRun(s')[tr] == 0 && s'.q.requesting == None && s'.phase == Head
  {
    RunsIn(s, tr);
    HonourConserves(s);
    hide InRun, Asleep, RemoveLast;
  }

  // ---- What set_thread_state leaves behind ----

  // A thread has the state that another one sets, unless it sleeps for a time; then it is woken, and has it
  // when the timers are looked at next.
  lemma SetsExactly(s: State, tr: Tid, state: int)
    requires Enabled(s, OpSet(tr, state))
    ensures var s' := Apply(s, OpSet(tr, state));
            && (Of(s', tr).state == state <==> Of(s, tr).state == state || !Dreams(Of(s, tr)))
            && (forall t :: t != tr ==> Of(s', t) == Of(s, t)) && Of(s', tr).duration == Of(s, tr).duration
  {
    hide Restart, Dequeue, Sleepers;
  }

  lemma StepPaused(s: State, op: Op, tr: Tid)
    requires Always(s) && Enabled(s, op) && op != OpRemoveLast
    requires Yields(s, tr) && s.asked == DORMANT && Of(s, tr).duration != 0
    ensures var s' := Apply(s, op); Yields(s', tr) && s'.asked == DORMANT && Of(s', tr).duration != 0
  {
    YieldsAsleep(s, tr);
    YieldsAsleep(Apply(s, op), tr);
    StepConserves(s, op);
    hide Sleepers, Yields, InRun, Asleep, Ordered, Runs, Honour, Timers;
  }

  lemma {:induction false} RunPaused(s: State, ops: seq<Op>, tr: Tid)
    requires Always(s) && OpRemoveLast !in ops
    requires Yields(s, tr) && s.asked == DORMANT && Of(s, tr).duration != 0
    ensures var s' := Run(s, ops); Always(s') && Yields(s', tr) && s'.asked == DORMANT && Of(s', tr).duration != 0
    decreases |ops|
  {
    hide Always, Yields, Of, Apply, Enabled;
    if ops != [] {
      assert ops[0] in ops && forall op :: op in ops[1..] ==> op in ops;
      if Enabled(s, ops[0]) {
        StepAlways(s, ops[0]);
        StepPaused(s, ops[0], tr);
      }
      RunPaused(Step(s, ops[0]), ops[1..], tr);
    }
  }

  // Once the request of its pause is honoured, a thread dreams, whatever happens in between, if it is still
  // on the run queue then: to set it RUNNING is to wake it, and does not queue it.
  lemma PauseMakesDream(before: seq<Op>, tr: Tid, ms: nat, now: nat, between: seq<Op>)
    requires Enabled(Run(EMPTY, before), OpPause(tr, ms, now)) && OpRemoveLast !in between
    ensures var s := Run(Apply(Run(EMPTY, before), OpPause(tr, ms, now)), between);
            Enabled(s, OpRemoveLast) && tr in s.q.run ==>
              Dreams(Of(Apply(s, OpRemoveLast), tr)) && !PutsOn(Apply(s, OpRemoveLast), tr, RUNNING)
  {
    EmptyIsGood();
    GoodIsAlways(EMPTY);
    RunAlways(EMPTY, before);
    var s, pause := Run(EMPTY, before), OpPause(tr, ms, now);
    PauseYields(s, tr, ms, now);
    StepAlways(s, pause);
    RunPaused(Apply(s, pause), between, tr);
    hide Always, Run, RemoveLast, Sleepers;
  }

  lemma PauseYields(s: State, tr: Tid, ms: nat, now: nat)
    requires Enabled(s, OpPause(tr, ms, now))
    ensures var s' := Apply(s, OpPause(tr, ms, now));
            Yields(s', tr) && s'.asked == DORMANT && Of(s', tr).duration != 0
  {
    hide Sleepers, Inserted;
    InsertedCounts(s.q.paused, Paused(tr, RUNNING, now + ms, now));
    YieldsAsleep(Apply(s, OpPause(tr, ms, now)), tr);
  }

  // ---- How long a thread sleeps ----

  predicate Touches(op: Op, tr: Tid) {
    || (op.OpPause? && op.tr == tr)
    || (op.OpSet? && op.tr == tr && op.state == RUNNING)
  }

  // Some look at the timers in the run takes place at that time or later.
  predicate LookedAt(s: State, ops: seq<Op>, time: nat)
    decreases |ops|
  {
    && ops != []
    && (|| (Enabled(s, ops[0]) && ops[0].OpTimers? && ops[0].time >= time)
        || LookedAt(Step(s, ops[0]), ops[1..], time))
  }

  lemma StepSleeps(s: State, op: Op, e: Paused)
    requires Enabled(s, op) && Ordered(s.q) && !Touches(op, e.tr)
    ensures e in Apply(s, op).q.paused <==> e in s.q.paused && !(op.OpTimers? && op.time >= e.request)
  {
    hide Sorted, Sleepers, Restart, Dequeue, Inserted, DueCount, Awake, Of, Yields, Dreams;
    match op
    case OpSet(tr, _) =>
      DequeueKeeps(s.q, tr);
      if tr != e.tr { RestartOthers(s.q, tr, e); }
    case OpPause(tr, ms, now) => InsertedCounts(s.q.paused, Paused(tr, RUNNING, now + ms, now));
    case OpRemoveLast =>
      if s.q.requesting.Some? { DequeueKeeps(s.q, s.q.requesting.value); }
    case OpTimers(time) => WakesEntry(s.q, time, e);
    case _ =>
  }

  lemma RestartOthers(q: Queues, tr: Tid, e: Paused)
    requires tr != e.tr
    ensures e in Restart(q, tr).paused <==> e in q.paused
  {
    if tr in Sleepers(q.paused) {
      var pos := RestartAt(q, tr);
      hide Restart;
      DropMembers(q.paused, pos);
    } else {
      NoRestart(q, tr);
    }
  }

  lemma WakesEntry(q: Queues, time: nat, e: Paused)
    requires Sorted(q.paused)
    ensures e in Wake(q, time).paused <==> e in q.paused && time < e.request
  {
    DueIndices(q.paused, time);
    var n := DueCount(q.paused, time);
    if e in q.paused && time < e.request {
      var i :| 0 <= i < |q.paused| && q.paused[i] == e;
      assert q.paused[n..][i - n] == e;
    }
  }

  lemma {:induction false} RunSleeps(s: State, ops: seq<Op>, e: Paused)
    requires Always(s) && forall op :: op in ops ==> !Touches(op, e.tr)
    ensures e in Run(s, ops).q.paused <==> e in s.q.paused && !LookedAt(s, ops, e.request)
    decreases |ops|
  {
    hide Runs, Ordered, Apply, Enabled;
    if ops != [] {
      var op := ops[0];
      assert ops == [op] + ops[1..];
      assert !Touches(op, e.tr);
      if Enabled(s, op) {
        StepAlways(s, op);
        StepSleeps(s, op, e);
      }
      RunSleeps(Step(s, op), ops[1..], e);
    }
  }

  // A pause of ms milliseconds at `now` lasts through every run until a look at the timers at now + ms or
  // later, and through no run with such a look, if the thread does not pause again and is not set RUNNING.
  // If it did not sleep before, it sleeps exactly as long as that.
  lemma SleepsItsTime(before: seq<Op>, tr: Tid, ms: nat, now: nat, after: seq<Op>)
    requires Enabled(Run(EMPTY, before), OpPause(tr, ms, now))
    requires forall op :: op in after ==> !Touches(op, tr)
    ensures var s := Run(EMPTY, before);
            var s' := Apply(s, OpPause(tr, ms, now));
            && (Paused(tr, RUNNING, now + ms, now) in Run(s', after).q.paused <==> !LookedAt(s', after, now + ms))
            && (tr !in Sleepers(s.q.paused) ==>
                  (tr in Sleepers(Run(s', after).q.paused) <==> !LookedAt(s', after, now + ms)))
  {
    hide Good, Sleepers, Inserted, Enabled;
    EmptyIsGood();
    GoodIsAlways(EMPTY);
    RunAlways(EMPTY, before);
    var s := Run(EMPTY, before);
    var s' := Apply(s, OpPause(tr, ms, now));
    StepAlways(s, OpPause(tr, ms, now));
    var e := Paused(tr, RUNNING, now + ms, now);
    InsertedCounts(s.q.paused, e);
    RunSleeps(s', after, e);
    if tr !in Sleepers(s.q.paused) {
      var p := Run(s', after).q.paused;
      forall f | f in p && f.tr == tr ensures f == e {
        RunSleeps(s', after, f);
        if f in s.q.paused { EntrySleeps(s.q.paused, f); }
      }
      if e in p { EntrySleeps(p, e); }
      if tr in Sleepers(p) { SleeperEntry(p, tr); }
    }
  }

  lemma EntrySleeps(paused: seq<Paused>, e: Paused)
    requires e in paused
    ensures e.tr in Sleepers(paused)
  {
    var i :| 0 <= i < |paused| && paused[i] == e;
    assert Sleepers(paused)[i] == e.tr;
  }

  lemma SleeperEntry(paused: seq<Paused>, tr: Tid)
    requires tr in Sleepers(paused)
    ensures exists e :: e in paused && e.tr == tr
  {
    var i :| 0 <= i < |paused| && Sleepers(paused)[i] == tr;
    assert paused[i] in paused;
  }

  // ---- Nobody who goes to sleep is lost ----

  // What takes a thread off the run queue for another reason than its pause.
  predicate Concerns(op: Op, tr: Tid) {
    || (op.OpSet? && op.tr == tr && op.state != RUNNING)
    || (op.OpRequest? && op.tr == tr)
  }

  ghost predicate NoneConcerns(ops: seq<Op>, tr: Tid) {
    forall op :: op in ops ==> !Concerns(op, tr)
  }

  // The thread is in a queue, and stays in one when its request is honoured.
  predicate Kept(s: State, tr: Tid) {
    All(s)[tr] >= if s.q.requesting == Some(tr) then 2 else 1
  }

  // What stands in the queues changes by one thread, or moves.
  lemma KeptAfter(run: multiset<Tid>, asleep: multiset<Tid>, t: Tid, tr: Tid)
    ensures (run + multiset{t})[tr] == run[tr] + if t == tr then 1 else 0
    ensures (run - multiset{t})[tr] + (if t == tr then 1 else 0) >= run[tr]
    ensures (asleep + multiset{t})[tr] == asleep[tr] + if t == tr then 1 else 0
  {
  }

  lemma MovedAfter(run: multiset<Tid>, asleep: multiset<Tid>, woken: multiset<Tid>, tr: Tid)
    requires woken <= asleep
    ensures (run + woken)[tr] + (asleep - woken)[tr] == run[tr] + asleep[tr]
  {
  }

  lemma StepKept(s: State, op: Op, tr: Tid)
    requires Enabled(s, op) && Kept(s, tr) && !Concerns(op, tr)
    ensures Kept(Apply(s, op), tr)
  {
    hide Apply, InRun, Asleep, Enabled, Woken, Of, Dreams, Yields, PutsOn;
    StepConserves(s, op);
    match op
    case OpTimers(time) => MovedAfter(InRun(s), Asleep(s), Woken(s, time), tr);
    case OpPause(t, _, _) => KeptAfter(InRun(s), Asleep(s), t, tr);
    case OpRemoveLast =>
      if s.q.requesting.Some? { KeptAfter(InRun(s), Asleep(s), s.q.requesting.value, tr); }
    case OpSet(t, state) => KeptAfter(InRun(s), Asleep(s), t, tr);
    case _ =>
  }

  lemma {:induction false} RunKept(s: State, ops: seq<Op>, tr: Tid)
    requires Kept(s, tr) && NoneConcerns(ops, tr)
    ensures tr in All(Run(s, ops))
    decreases |ops|
  {
    hide Enabled, All, Apply;
    if ops != [] {
      var op := ops[0];
      assert !Concerns(op, tr);
      if Enabled(s, op) { StepKept(s, op, tr); }
      RunKept(Step(s, op), ops[1..], tr);
    }
  }

  // A thread that pauses is in a queue for as long as nothing else takes it off the run queue, over every
  // run, whatever happened before.
  lemma NeverLost(before: seq<Op>, tr: Tid, ms: nat, now: nat, after: seq<Op>)
    requires Enabled(Run(EMPTY, before), OpPause(tr, ms, now)) && NoneConcerns(after, tr)
    ensures tr in All(Run(Apply(Run(EMPTY, before), OpPause(tr, ms, now)), after))
  {
    hide Good, InRun, Asleep, NoneConcerns, Ordered;
    EmptyIsGood();
    GoodIsAlways(EMPTY);
    RunAlways(EMPTY, before);
    var s, pause := Run(EMPTY, before), OpPause(tr, ms, now);
    assert Runs(s, tr);
    StepConserves(s, pause);
    RunKept(Apply(s, pause), after, tr);
  }
}
