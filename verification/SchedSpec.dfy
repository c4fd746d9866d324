// What the queues of a CPU's scheduler do (kernel/scheduler/scheduler.c), on values: the run queue, the
// pause queue, the position of the next thread, and the thread that asked for another state.
module SchedSpec {
  import opened Options
  import opened Sequences
  import Multiples

  type Tid = nat

  // states of a thread
  const RUNNING: int := 1
  const SUSPENDED: int := 2
  const DORMANT: int := 3

  // struct paused_schedule
  datatype Paused = Paused(tr: Tid, state: int, request: nat, start: nat)

  datatype Queues = Queues(run: seq<Tid>, paused: seq<Paused>, position: nat, requesting: Option<Tid>)

  const NO_THREADS := Queues([], [], 0, None)

  ghost predicate Sorted(paused: seq<Paused>) {
    forall i, j :: 0 <= i < j < |paused| ==> paused[i].request <= paused[j].request
  }

  function Sleepers(paused: seq<Paused>): (s: seq<Tid>)
    ensures |s| == |paused| && forall i :: 0 <= i < |s| ==> s[i] == paused[i].tr
  {
    seq(|paused|, i requires 0 <= i < |paused| => paused[i].tr)
  }

  // The unsigned (position - 1) % count, which wraps at position 0.
  function Back(position: nat, count: nat): (p: nat)
    ensures count > 0 ==> p < count
  {
    if count == 0 then 0
    else if position > 0 then (position - 1) % count else (0x1_0000_0000 - 1) % count
  }

  function Find(run: seq<Tid>, tr: Tid): (i: nat)
    ensures i <= |run|
    ensures i < |run| ==> run[i] == tr
    ensures forall j :: 0 <= j < i ==> run[j] != tr
  {
    if run == [] || run[0] == tr then 0 else 1 + Find(run[1..], tr)
  }

  // ---- The operations ----

  function Queue(q: Queues, tr: Tid): Queues {
    q.(run := q.run + [tr])
  }

  function Dequeue(q: Queues, tr: Tid): Queues {
    var pos := Find(q.run, tr);
    if pos == |q.run| then q
    else q.(run := Drop(q.run, pos), position := Back(q.position, |q.run| - 1))
  }

  // Behind every entry that is not later.
  function Inserted(paused: seq<Paused>, e: Paused): (r: seq<Paused>) {
    if paused == [] || paused[0].request > e.request then [e] + paused
    else [paused[0]] + Inserted(paused[1..], e)
  }

  // The current thread goes to sleep for ms milliseconds, and asks to be taken off the run queue.
  function Pause(q: Queues, tr: Tid, state: int, ms: nat, now: nat): Queues {
    q.(paused := Inserted(q.paused, Paused(tr, state, now + ms, now)), requesting := Some(tr))
  }

  // To the front, due at any time.
  function Restart(q: Queues, tr: Tid): Queues {
    var pos := Find(Sleepers(q.paused), tr);
    if pos == |q.paused| then q
    else q.(paused := [q.paused[pos].(request := 0)] + Drop(q.paused, pos))
  }

  function RemoveLast(q: Queues): Queues {
    if q.requesting.None? then q else Dequeue(q, q.requesting.value).(requesting := None)
  }

  function DueCount(paused: seq<Paused>, time: nat): (n: nat)
    ensures n <= |paused|
    ensures forall i :: 0 <= i < n ==> paused[i].request <= time
    ensures n < |paused| ==> paused[n].request > time
  {
    if paused == [] || paused[0].request > time then 0 else 1 + DueCount(paused[1..], time)
  }

  function Wake(q: Queues, time: nat): Queues {
    var n := DueCount(q.paused, time);
    q.(run := q.run + Sleepers(q.paused[..n]), paused := q.paused[n..])
  }

  // The dispatch of the thread at `position`.
  function Advance(q: Queues): Queues {
    if q.run == [] then q else q.(position := (q.position + 1) % |q.run|)
  }

  // ---- Where an entry goes ----

  function Place(paused: seq<Paused>, request: nat): (pos: nat)
    ensures pos <= |paused|
    ensures forall i :: 0 <= i < pos ==> paused[i].request <= request
    ensures pos < |paused| ==> paused[pos].request > request
  {
    if paused == [] || paused[0].request > request then 0 else 1 + Place(paused[1..], request)
  }

  lemma {:induction false} InsertedAt(paused: seq<Paused>, e: Paused)
    ensures var pos := Place(paused, e.request);
            Inserted(paused, e) == paused[..pos] + [e] + paused[pos..]
  {
    if paused != [] && paused[0].request <= e.request {
      InsertedAt(paused[1..], e);
    }
  }

  // What stands at place i once e is at pos.
  lemma InsertedIs(paused: seq<Paused>, e: Paused, pos: nat, i: nat)
    requires pos <= |paused| && i <= |paused|
    ensures (paused[..pos] + [e] + paused[pos..])[i] ==
            if i < pos then paused[i] else if i == pos then e else paused[i - 1]
  {
  }

  lemma InsertedSorted(paused: seq<Paused>, e: Paused)
    requires Sorted(paused)
    ensures Sorted(Inserted(paused, e))
  {
    var pos := Place(paused, e.request);
    InsertedAt(paused, e);
    var r := Inserted(paused, e);
    hide Inserted, Place;
    forall i, j | 0 <= i < j < |r| ensures r[i].request <= r[j].request {
      InsertedIs(paused, e, pos, i);
      InsertedIs(paused, e, pos, j);
      if i == pos && j > pos + 1 {
        assert paused[pos].request <= paused[j - 1].request;
      }
    }
  }

  lemma SleepersDrop(paused: seq<Paused>, i: nat)
    requires i < |paused|
    ensures Sleepers(Drop(paused, i)) == Drop(Sleepers(paused), i)
  {
  }

  lemma SleepersJoin(a: seq<Paused>, b: seq<Paused>)
    ensures Sleepers(a + b) == Sleepers(a) + Sleepers(b)
  {
  }

  // ---- What each operation does to the threads in the queues ----

  lemma FindFinds(run: seq<Tid>, tr: Tid)
    ensures tr in run <==> Find(run, tr) < |run|
  {
    if tr in run {
      var k :| 0 <= k < |run| && run[k] == tr;
    }
  }

  lemma DequeueKeeps(q: Queues, tr: Tid)
    ensures Dequeue(q, tr).paused == q.paused && Dequeue(q, tr).requesting == q.requesting
    ensures q.run == [] ==> Dequeue(q, tr) == q
    ensures q.run != [] && q.position < |q.run| ==>
              var d := Dequeue(q, tr); if d.run == [] then d.position == 0 else d.position < |d.run|
  {
  }

  lemma QueueCounts(q: Queues, tr: Tid)
    ensures multiset(Queue(q, tr).run) == multiset(q.run) + multiset{tr}
  {
  }

  lemma DequeueCounts(q: Queues, tr: Tid)
    ensures multiset(Dequeue(q, tr).run) == multiset(q.run) - multiset{tr}
  {
    FindFinds(q.run, tr);
    var pos := Find(q.run, tr);
    if pos < |q.run| {
      DropTakes(q.run, pos);
    } else {
      assert tr !in multiset(q.run);
    }
  }

  lemma InsertedDrop(paused: seq<Paused>, e: Paused) returns (pos: nat)
    ensures pos < |Inserted(paused, e)| && Drop(Inserted(paused, e), pos) == paused && Inserted(paused, e)[pos] == e
  {
    pos := Place(paused, e.request);
    InsertedAt(paused, e);
  }

  lemma InsertedCounts(paused: seq<Paused>, e: Paused)
    ensures multiset(Sleepers(Inserted(paused, e))) == multiset(Sleepers(paused)) + multiset{e.tr}
    ensures forall x :: x in Inserted(paused, e) <==> x in paused || x == e
  {
    hide Inserted, Drop;
    var r := Inserted(paused, e);
    var pos := InsertedDrop(paused, e);
    DropMembers(r, pos);
    SleepersDrop(r, pos);
    DropTakes(Sleepers(r), pos);
  }

  // The entry that restart moves, and the others in front of which it comes.
  lemma RestartAt(q: Queues, tr: Tid) returns (pos: nat)
    requires tr in Sleepers(q.paused)
    ensures pos < |q.paused| && q.paused[pos].tr == tr && Sleepers(q.paused)[pos] == tr
    ensures Restart(q, tr) == q.(paused := [q.paused[pos].(request := 0)] + Drop(q.paused, pos))
    ensures Sleepers(Restart(q, tr).paused) == [tr] + Drop(Sleepers(q.paused), pos)
  {
    FindFinds(Sleepers(q.paused), tr);
    pos := Find(Sleepers(q.paused), tr);
    SleepersDrop(q.paused, pos);
    SleepersJoin([q.paused[pos].(request := 0)], Drop(q.paused, pos));
  }

  lemma RestartCounts(q: Queues, tr: Tid)
    ensures var r := Restart(q, tr);
            && multiset(Sleepers(r.paused)) == multiset(Sleepers(q.paused))
            && r.run == q.run && r.position == q.position && r.requesting == q.requesting
  {
    hide Restart, Drop, Sleepers;
    if tr in Sleepers(q.paused) {
      var pos := RestartAt(q, tr);
      DropTakes(Sleepers(q.paused), pos);
      RestartRuns(q, tr);
    } else {
      NoRestart(q, tr);
    }
  }

  lemma RestartRuns(q: Queues, tr: Tid)
    requires tr in Sleepers(q.paused)
    ensures Restart(q, tr).run == q.run
    ensures Restart(q, tr).position == q.position && Restart(q, tr).requesting == q.requesting
  {
  }

  lemma NoRestart(q: Queues, tr: Tid)
    requires tr !in Sleepers(q.paused)
    ensures Restart(q, tr) == q
  {
    FindFinds(Sleepers(q.paused), tr);
  }

  lemma DropSorted(paused: seq<Paused>, i: nat)
    requires Sorted(paused) && i < |paused|
    ensures Sorted(Drop(paused, i))
  {
    var rest := Drop(paused, i);
    assert forall k :: 0 <= k < |rest| ==> rest[k] == paused[if k < i then k else k + 1];
  }

  lemma RestartSorted(q: Queues, tr: Tid)
    requires Sorted(q.paused)
    ensures Sorted(Restart(q, tr).paused)
  {
    if tr in Sleepers(q.paused) {
      var pos := RestartAt(q, tr);
      hide Restart, Sleepers, Find;
      DropSorted(q.paused, pos);
    } else {
      NoRestart(q, tr);
    }
  }

  // The entries are those of before, but for the one that is now due.
  lemma RestartEntries(q: Queues, tr: Tid)
    ensures forall e :: e in Restart(q, tr).paused ==>
              e in q.paused || (e.tr == tr && exists f :: f in q.paused && e == f.(request := 0))
  {
    if tr in Sleepers(q.paused) {
      var pos := RestartAt(q, tr);
      hide Restart;
      DropMembers(q.paused, pos);
    } else {
      NoRestart(q, tr);
    }
  }

  // Those that are due, and those that are not.
  lemma WakeSplits(q: Queues, time: nat)
    ensures var n := DueCount(q.paused, time);
            && q.paused == q.paused[..n] + q.paused[n..]
            && Sleepers(q.paused) == Sleepers(q.paused[..n]) + Sleepers(q.paused[n..])
  {
    var n := DueCount(q.paused, time);
    assert q.paused == q.paused[..n] + q.paused[n..];
    SleepersJoin(q.paused[..n], q.paused[n..]);
  }

  lemma SuffixSorted(paused: seq<Paused>, n: nat)
    requires Sorted(paused) && n <= |paused|
    ensures Sorted(paused[n..])
  {
  }

  lemma WakeCounts(q: Queues, time: nat)
    ensures var w, woken := Wake(q, time), Sleepers(q.paused[..DueCount(q.paused, time)]);
            && multiset(w.run) == multiset(q.run) + multiset(woken)
            && multiset(Sleepers(q.paused)) == multiset(Sleepers(w.paused)) + multiset(woken)
  {
    WakeSplits(q, time);
    hide Sleepers, DueCount;
  }

  lemma WakeOrder(q: Queues, time: nat)
    ensures var w := Wake(q, time);
            && q.run <= w.run && w.position == q.position && w.requesting == q.requesting
            && (Sorted(q.paused) ==> Sorted(w.paused)) && (forall e :: e in w.paused ==> e in q.paused)
  {
    if Sorted(q.paused) { SuffixSorted(q.paused, DueCount(q.paused, time)); }
    hide Sleepers, DueCount, Sorted;
  }

  // The entries that are due, and those that are not, wherever they stand.
  function Due(paused: seq<Paused>, time: nat): seq<Paused> {
    if paused == [] then []
    else (if paused[0].request <= time then [paused[0]] else []) + Due(paused[1..], time)
  }

  function NotDue(paused: seq<Paused>, time: nat): seq<Paused> {
    if paused == [] then []
    else (if paused[0].request <= time then [] else [paused[0]]) + NotDue(paused[1..], time)
  }

  lemma {:induction false} NoneDue(paused: seq<Paused>, time: nat)
    requires forall i :: 0 <= i < |paused| ==> paused[i].request > time
    ensures Due(paused, time) == [] && NotDue(paused, time) == paused
  {
    if paused != [] {
      NoneDue(paused[1..], time);
    }
  }

  lemma DueIndices(paused: seq<Paused>, time: nat)
    requires Sorted(paused)
    ensures forall i :: 0 <= i < |paused| ==> (i < DueCount(paused, time) <==> paused[i].request <= time)
  {
    var n := DueCount(paused, time);
    if n < |paused| {
      assert forall i :: n < i < |paused| ==> paused[n].request <= paused[i].request;
    }
  }

  lemma {:induction false} DueComeFirst(paused: seq<Paused>, time: nat)
    requires Sorted(paused)
    ensures Due(paused, time) == paused[..DueCount(paused, time)]
    ensures NotDue(paused, time) == paused[DueCount(paused, time)..]
  {
    var n := DueCount(paused, time);
    if n == 0 {
      DueIndices(paused, time);
      NoneDue(paused, time);
    } else {
      var rest := paused[1..];
      assert Sorted(rest);
      DueComeFirst(rest, time);
      assert paused[..n] == [paused[0]] + rest[..n - 1];
      assert paused[n..] == rest[n - 1..];
    }
  }

  // A look at the timers stops at the first entry that is not due. In a sorted queue it wakes all that
  // are due, in their order, and nobody else.
  lemma WakesTheDue(q: Queues, time: nat)
    requires Sorted(q.paused)
    ensures Wake(q, time).run == q.run + Sleepers(Due(q.paused, time))
    ensures Wake(q, time).paused == NotDue(q.paused, time)
  {
    DueComeFirst(q.paused, time);
  }

  // ---- Whose turn it is ----

  // The threads that k dispatches in a row pick from an unchanged run queue.
  function Turns(q: Queues, k: nat): (ts: seq<Tid>)
    requires q.position < |q.run|
    ensures |ts| == k
    decreases k
  {
    if k == 0 then [] else [q.run[q.position]] + Turns(Advance(q), k - 1)
  }

  lemma AdvanceWraps(q: Queues)
    requires q.position < |q.run|
    ensures Advance(q) == q.(position := if q.position + 1 < |q.run| then q.position + 1 else 0)
  {
    var n := |q.run|;
    if q.position + 1 < n {
      Multiples.DivUnique(q.position + 1, 0, q.position + 1, n);
    } else {
      Multiples.DivUnique(n, 1, 0, n);
    }
  }

  lemma {:induction false} TurnAt(q: Queues, k: nat, i: nat)
    requires q.position < |q.run| && i < k <= |q.run|
    ensures Turns(q, k)[i] ==
            q.run[if q.position + i < |q.run| then q.position + i else q.position + i - |q.run|]
    decreases k
  {
    AdvanceWraps(q);
    if i > 0 {
      TurnAt(Advance(q), k - 1, i - 1);
    }
  }

  // As many dispatches as there are threads give each one turn, in the order of the queue.
  lemma EachGetsATurn(q: Queues)
    requires q.position < |q.run|
    ensures Turns(q, |q.run|) == q.run[q.position..] + q.run[..q.position]
  {
    forall i | 0 <= i < |q.run| ensures Turns(q, |q.run|)[i] == (q.run[q.position..] + q.run[..q.position])[i] {
      TurnAt(q, |q.run|, i);
    }
  }

  // Taking out a thread leaves the next one next exactly if it stood before it; with the first thread next,
  // exactly if the wrapped position falls on 0.
  lemma NextExactly(q: Queues, i: nat)
    requires Distinct(q.run) && |q.run| > 1 && q.position < |q.run| && i < |q.run| && i != q.position
    ensures var d := Dequeue(q, q.run[i]);
            && d.position < |d.run|
            && (d.run[d.position] == q.run[q.position] <==>
                if q.position > 0 then i < q.position else (0x1_0000_0000 - 1) % (|q.run| - 1) == 0)
  {
    var n := |q.run|;
    assert Find(q.run, q.run[i]) == i;
    var d := Dequeue(q, q.run[i]);
    assert d.run == Drop(q.run, i);
    if q.position > 0 { Multiples.DivUnique(q.position - 1, 0, q.position - 1, n - 1); }
    assert d.run[d.position] == q.run[if d.position < i then d.position else d.position + 1];
  }

  // When a thread gives up its turn for good, the one after it is next, exactly if it did not stand last or
  // the wrapped position falls on 0.
  lemma TurnPasses(q: Queues)
    requires Distinct(q.run) && |q.run| > 1 && q.position < |q.run|
    ensures var a := Advance(q); var d := Dequeue(a, q.run[q.position]);
            && a.position < |a.run| && d.position < |d.run|
            && (d.run[d.position] == a.run[a.position] <==>
                q.position + 1 < |q.run| || (0x1_0000_0000 - 1) % (|q.run| - 1) == 0)
  {
    AdvanceWraps(q);
    NextExactly(Advance(q), q.position);
  }

  // ---- The fast queue and `flip` ----

  // One turn of the dispatch loop: whether a fast thread is there, and whether the run queue is empty
  // after the thread has run.
  datatype Turn = Turn(fast: bool, othersWait: bool)

  datatype Choice = Fast | Regular

  function Choose(flip: bool, turn: Turn): (Choice, bool) {
    if !flip && turn.fast then (Fast, turn.othersWait) else (Regular, false)
  }

  function Choices(flip: bool, turns: seq<Turn>): (cs: seq<Choice>)
    ensures |cs| == |turns|
    decreases |turns|
  {
    if turns == [] then []
    else var (c, f) := Choose(flip, turns[0]); [c] + Choices(f, turns[1..])
  }

  function Count(cs: seq<Choice>, c: Choice): nat {
    if cs == [] then 0 else (if cs[0] == c then 1 else 0) + Count(cs[1..], c)
  }

  lemma {:induction false} FastShare(flip: bool, turns: seq<Turn>, n: nat)
    requires n <= |turns| && forall k :: 0 <= k < n - 1 ==> turns[k].othersWait
    ensures 2 * Count(Choices(flip, turns)[..n], Fast) <= n + if flip || n == 0 then 0 else 1
    decreases |turns|
  {
    if n > 0 {
      var (c, f) := Choose(flip, turns[0]);
      FastShare(f, turns[1..], n - 1);
      assert Choices(flip, turns)[..n] == [c] + Choices(f, turns[1..])[..n - 1];
      assert Choices(flip, turns)[..n][1..] == Choices(f, turns[1..])[..n - 1];
    }
  }

  lemma {:induction false} RegularShare(flip: bool, turns: seq<Turn>, n: nat)
    requires n <= |turns| && forall k :: 0 <= k < n ==> turns[k].fast
    ensures 2 * Count(Choices(flip, turns)[..n], Regular) <= n + if flip then 1 else 0
    decreases |turns|
  {
    if n > 0 {
      var (c, f) := Choose(flip, turns[0]);
      RegularShare(f, turns[1..], n - 1);
      assert Choices(flip, turns)[..n] == [c] + Choices(f, turns[1..])[..n - 1];
      assert Choices(flip, turns)[..n][1..] == Choices(f, turns[1..])[..n - 1];
    }
  }

  lemma {:induction false} FromTurn(flip: bool, turns: seq<Turn>, i: nat) returns (f: bool)
    requires i <= |turns|
    ensures Choices(flip, turns)[i..] == Choices(f, turns[i..])
    decreases |turns|
  {
    if i == 0 {
      f := flip;
    } else {
      f := FromTurn(Choose(flip, turns[0]).1, turns[1..], i - 1);
      assert turns[1..][i - 1..] == turns[i..];
    }
  }

  // A fast thread that is there does not get the turn exactly if another one got the turn before and left
  // threads waiting on the run queue.
  lemma {:induction false} FastWaitsExactly(flip: bool, turns: seq<Turn>, k: nat)
    requires k < |turns| && turns[k].fast
    ensures Choices(flip, turns)[k] == Regular <==>
            if k == 0 then flip else Choices(flip, turns)[k - 1] == Fast && turns[k - 1].othersWait
    decreases k
  {
    if k > 0 {
      var (c, f) := Choose(flip, turns[0]);
      FastWaitsExactly(f, turns[1..], k - 1);
    }
  }

  // Over every stretch of every run: while others wait, at most every other turn goes to a fast thread
  // (so it never passes them twice in a row); while a fast thread is there, at least every other one does.
  lemma FastTakesTurns(flip: bool, turns: seq<Turn>, i: nat, j: nat)
    requires i <= j <= |turns|
    ensures (forall k :: i <= k < j - 1 ==> turns[k].othersWait) ==>
              2 * Count(Choices(flip, turns)[i..j], Fast) <= j - i + 1
    ensures (forall k :: i <= k < j ==> turns[k].fast) ==>
              2 * Count(Choices(flip, turns)[i..j], Regular) <= j - i + 1
  {
    hide Choices, Count;
    var f := FromTurn(flip, turns, i);
    assert Choices(flip, turns)[i..j] == Choices(flip, turns)[i..][..j - i];
    if forall k :: i <= k < j - 1 ==> turns[k].othersWait { FastShare(f, turns[i..], j - i); }
    if forall k :: i <= k < j ==> turns[k].fast { RegularShare(f, turns[i..], j - i); }
  }
}
