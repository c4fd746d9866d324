// When a writer can still get in, and when a reader can: the exact conditions under which the
// reader/writer lock of kernel/ds/rwlock.c keeps what it is for.
module RwLockProgress {
  import opened Options
  import opened RwLock

  // Some way of letting the threads go on makes one of them a writer.
  ghost predicate CanWrite(s: State) {
    exists more :: Writers(Run(s, more).pcs) > 0
  }

  lemma StepLater(s: State, turn: Turn)
    requires CanWrite(Step(s, turn))
    ensures CanWrite(s)
  {
    var more :| Writers(Run(Step(s, turn), more).pcs) > 0;
    assert ([turn] + more)[1..] == more;
    assert Run(s, [turn] + more) == Run(Step(s, turn), more);
  }

  lemma WriterIn(s: State)
    requires Writers(s.pcs) > 0
    ensures CanWrite(s)
  {
    assert Run(s, []) == s;
  }

  // ---- Nobody reads, writes, or holds the spinlock ----

  // Everyone is out of the lock and num_readers says so.
  ghost predicate Vacant(s: State) {
    s.holder.None? && s.words.numReaders == 0 == s.words.numWriters && !s.words.locked
  }

  lemma WaitingWriterGetsIn(s: State, t: nat)
    requires Vacant(s) && t < |s.pcs| && s.pcs[t].WantWrite?
    ensures CanWrite(s)
  {
    hide CanWrite, Run, Writers;
    var turn := Turn(t, true);
    var s1 := Step(s, turn);
    var s2 := Step(s1, turn);
    var s3 := Step(s2, turn);
    var s4 := Step(s3, turn);
    assert s4.pcs[t].WriteLeave?;
    SomeWrites(s4.pcs, t);
    WriterIn(s4);
    StepLater(s3, turn);
    StepLater(s2, turn);
    StepLater(s1, turn);
    StepLater(s, turn);
  }

  lemma IdleThreadGetsIn(s: State, t: nat)
    requires Vacant(s) && t < |s.pcs| && s.pcs[t].Idle?
    ensures CanWrite(s)
  {
    hide CanWrite, Run, Writers;
    WaitingWriterGetsIn(Step(s, Turn(t, true)), t);
    StepLater(s, Turn(t, true));
  }

  // A waiting reader gets in and leaves again while nobody else moves.
  lemma WaitingReaderMakesWay(s: State, t: nat)
    requires Vacant(s) && t < |s.pcs| && s.pcs[t].WantRead? && !s.words.writeRequest
    ensures CanWrite(s)
  {
    hide CanWrite, Run, Writers;
    var turn := Turn(t, false);
    var s1 := Step(s, turn);
    var s2 := Step(s1, turn);
    var s3 := Step(s2, turn);
    var s4 := Step(s3, turn);
    var s5 := Step(s4, turn);
    var s6 := Step(s5, turn);
    assert s6.pcs[t].Reading? && s6.words == Words(false, 1, 0, false) && s6.holder.None?;
    ReaderMakesWay(s6, t);
    StepLater(s5, turn);
    StepLater(s4, turn);
    StepLater(s3, turn);
    StepLater(s2, turn);
    StepLater(s1, turn);
    StepLater(s, turn);
  }

  lemma ReaderMakesWay(s: State, t: nat)
    requires t < |s.pcs| && s.pcs[t].Reading? && s.words == Words(false, 1, 0, false) && s.holder.None?
    ensures CanWrite(s)
  {
    hide CanWrite, Run, Writers;
    var turn := Turn(t, false);
    var s1 := Step(s, turn);
    var s2 := Step(s1, turn);
    var s3 := Step(s2, turn);
    IdleThreadGetsIn(s3, t);
    StepLater(s2, turn);
    StepLater(s1, turn);
    StepLater(s, turn);
  }

  lemma NoneReads(pcs: seq<Pc>, t: nat)
    requires t < |pcs| && Readers(pcs) == 0
    ensures !Reads(pcs[t])
  {
    if Reads(pcs[t]) { SomeReads(pcs, t); }
  }

  lemma VacantLetsIn(s: State)
    requires Good(s) && Vacant(s) && Readers(s.pcs) == 0 && |s.pcs| > 0
    ensures CanWrite(s)
  {
    hide CanWrite, Run, Writers, Readers;
    VacantPcs(s);
    if t :| 0 <= t < |s.pcs| && s.pcs[t].WantWrite? {
      WaitingWriterGetsIn(s, t);
    } else if t :| 0 <= t < |s.pcs| && s.pcs[t].Idle? {
      IdleThreadGetsIn(s, t);
    } else {
      assert !s.words.writeRequest;
      WaitingReaderMakesWay(s, 0);
    }
  }

  lemma VacantPcs(s: State)
    requires Good(s) && Vacant(s) && Readers(s.pcs) == 0
    ensures forall t :: 0 <= t < |s.pcs| ==> s.pcs[t].Idle? || s.pcs[t].WantWrite? || s.pcs[t].WantRead?
  {
    hide Readers, Writers;
    forall t | 0 <= t < |s.pcs|
      ensures s.pcs[t].Idle? || s.pcs[t].WantWrite? || s.pcs[t].WantRead?
    {
      NoneReads(s.pcs, t);
      assert Knows(s.words, s.pcs[t]);
    }
  }

  // ---- The lock can be vacated ----

  ghost predicate Vacated(s: State) {
    Good(s) && Vacant(s) && Readers(s.pcs) == 0
  }

  ghost predicate CanVacate(s: State) {
    exists more :: Vacated(Run(s, more))
  }

  lemma VacateLater(s: State, turn: Turn)
    requires CanVacate(Step(s, turn))
    ensures CanVacate(s)
  {
    hide Vacated;
    var more :| Vacated(Run(Step(s, turn), more));
    assert ([turn] + more)[1..] == more;
    assert Run(s, [turn] + more) == Run(Step(s, turn), more);
  }

  lemma {:induction false} SomeReader(pcs: seq<Pc>) returns (t: nat)
    requires Readers(pcs) > 0
    ensures t < |pcs| && Reads(pcs[t])
  {
    var n := |pcs| - 1;
    if Reads(pcs[n]) {
      t := n;
    } else {
      t := SomeReader(pcs[..n]);
    }
  }

  lemma {:induction false} SomeWriter(pcs: seq<Pc>) returns (t: nat)
    requires Writers(pcs) > 0
    ensures t < |pcs| && Writes(pcs[t])
  {
    var n := |pcs| - 1;
    if Writes(pcs[n]) {
      t := n;
    } else {
      t := SomeWriter(pcs[..n]);
    }
  }

  function StepsToLeave(pc: Pc): nat {
    match pc
    case Reading => 3
    case Writing => 4
    case Release(writer) => if writer then 3 else 2
    case ClearRequest => 2
    case ClearWriters => 1
    case DropReader => 1
    case _ => 0
  }

  // Those inside leave, one after the other.
  lemma {:induction false} AllLeave(s: State)
    requires Good(s) && s.holder.None? && s.droppedInside == 0
    ensures CanVacate(s)
    decreases Readers(s.pcs) + Writers(s.pcs), 5
  {
    hide CanVacate, Good;
    if Writers(s.pcs) > 0 {
      var t := SomeWriter(s.pcs);
      OneLeaves(s, t);
    } else if Readers(s.pcs) > 0 {
      var t := SomeReader(s.pcs);
      OneLeaves(s, t);
    } else {
      NobodyInside(s);
    }
  }

  lemma NobodyInside(s: State)
    requires Good(s) && s.holder.None? && s.droppedInside == 0 && Readers(s.pcs) == 0 == Writers(s.pcs)
    ensures CanVacate(s)
  {
    assert Vacated(s);
    assert Run(s, []) == s;
  }

  lemma {:induction false} OneLeaves(s: State, t: nat)
    requires Good(s) && s.holder.None? && s.droppedInside == 0
    requires t < |s.pcs| && (Reads(s.pcs[t]) || Writes(s.pcs[t]))
    ensures CanVacate(s)
    decreases Readers(s.pcs) + Writers(s.pcs), StepsToLeave(s.pcs[t])
  {
    hide CanVacate, Readers, Writers;
    assert Knows(s.words, s.pcs[t]);
    var s' := Step(s, Turn(t, false));
    ReadersUpdate(s.pcs, t, s'.pcs[t]);
    WritersUpdate(s.pcs, t, s'.pcs[t]);
    StepKeeps(s, Turn(t, false));
    if s'.pcs[t].Idle? {
      AllLeave(s');
    } else {
      OneLeaves(s', t);
    }
    VacateLater(s, Turn(t, false));
  }

  // ---- The owner of the spinlock gives it back ----

  function StepsToUnlock(pc: Pc): nat {
    match pc
    case WriteTestReaders => 5
    case WriteTestWriters => 4
    case WriteTake => 3
    case WriteAsk => 2
    case WriteRetry => 1
    case ReadTestWriters => 6
    case ReadTestRequest => 5
    case ReadLoad => 4
    case ReadStore(_) => 3
    case ReadLeave => 2
    case WriteLeave => 1
    case ReadRetry => 1
    case _ => 0
  }

  lemma {:induction false} OwnerUnlocks(s: State)
    requires Good(s) && s.holder.Some? && s.droppedInside == 0
    ensures CanVacate(s)
    decreases StepsToUnlock(s.pcs[s.holder.value])
  {
    hide CanVacate, Readers, Writers;
    var t := s.holder.value;
    assert InsideSpinlock(s.pcs[t]);
    var s' := Step(s, Turn(t, false));
    StepKeeps(s, Turn(t, false));
    if s'.holder.Some? {
      OwnerUnlocks(s');
    } else {
      AllLeave(s');
    }
    VacateLater(s, Turn(t, false));
  }

  lemma Vacates(s: State)
    requires Good(s) && s.droppedInside == 0
    ensures CanVacate(s)
  {
    if s.holder.Some? {
      OwnerUnlocks(s);
    } else {
      AllLeave(s);
    }
  }

  lemma {:induction false} SameThreads(s: State, turns: seq<Turn>)
    ensures |Run(s, turns).pcs| == |s.pcs|
    decreases |turns|
  {
    if turns != [] {
      SameThreads(Step(s, turns[0]), turns[1..]);
    }
  }

  lemma {:induction false} RunJoins(s: State, a: seq<Turn>, b: seq<Turn>)
    ensures Run(s, a + b) == Run(Run(s, a), b)
    decreases |a|
  {
    if a == [] {
      assert a + b == b;
    } else {
      assert (a + b)[1..] == a[1..] + b;
      RunJoins(Step(s, a[0]), a[1..], b);
    }
  }

  lemma GetsIn(s: State)
    requires Good(s) && s.droppedInside == 0 && |s.pcs| > 0
    ensures CanWrite(s)
  {
    hide Good, Vacant, Readers, Writers;
    Vacates(s);
    var more :| Vacated(Run(s, more));
    SameThreads(s, more);
    VacantLetsIn(Run(s, more));
    var rest :| Writers(Run(Run(s, more), rest).pcs) > 0;
    RunJoins(s, more, rest);
  }

  // After any run of any number of threads: a writer can still get in exactly when no decrement has
  // fallen between the load and the store of an increment.
  lemma WriterGetsInExactly(threads: nat, turns: seq<Turn>)
    requires threads > 0
    ensures var s := Run(Init(threads), turns);
            CanWrite(s) <==> s.droppedInside == 0
  {
    hide Readers, Writers;
    var s := Run(Init(threads), turns);
    StartIsGood(threads);
    RunKeeps(Init(threads), turns);
    SameThreads(Init(threads), turns);
    if s.droppedInside == 0 {
      GetsIn(s);
    } else if CanWrite(s) {
      var more :| Writers(Run(s, more).pcs) > 0;
      LostForGood(s, more);
    }
  }

  // ---- When a reader can still get in ----

  // The turn lets another reader in.
  predicate Admits(s: State, turn: Turn) {
    Readers(Step(s, turn).pcs) > Readers(s.pcs)
  }

  // Some way of letting the threads go on lets another reader in.
  ghost predicate CanRead(s: State) {
    exists more, turn :: Admits(Run(s, more), turn)
  }

  // A decrement is lost, and a writer waits or is bound to: the request is set, or the owner of the
  // spinlock is about to set it, or all threads have asked to write.
  ghost predicate Shut(s: State) {
    && s.droppedInside > 0
    && (|| s.words.writeRequest
        || (s.holder.Some? && s.holder.value < |s.pcs| && BoundToAsk(s.pcs[s.holder.value]))
        || forall t :: 0 <= t < |s.pcs| ==> WriterSide(s.pcs[t]))
  }

  predicate BoundToAsk(pc: Pc) {
    pc.WriteTestReaders? || pc.WriteAsk?
  }

  // After a lost decrement nobody writes, or is about to.
  lemma NobodyWrites(s: State, t: nat)
    requires Good(s) && s.droppedInside > 0 && t < |s.pcs|
    ensures s.words.numWriters == 0 && !Writes(s.pcs[t]) && !s.pcs[t].WriteTestWriters? && !s.pcs[t].WriteTake?
    ensures s.pcs[t].WriteTestReaders? ==> s.words.numReaders != 0
  {
    hide Readers, Writers;
    assert Knows(s.words, s.pcs[t]);
  }

  lemma ReadsAfter(pc: Pc, write: bool, w: Words)
    requires Knows(w, pc)
    ensures Reads(Act(pc, write, w).0) ==> Reads(pc) || pc.ReadStore?
  {
  }

  lemma OnlyStoreAdmits(s: State, turn: Turn)
    requires Good(s) && Admits(s, turn)
    ensures turn.thread < |s.pcs| && s.pcs[turn.thread].ReadStore? && !s.words.writeRequest
    ensures s.holder == Some(turn.thread)
  {
    hide Act, Counted, Asked, Readers;
    var t := turn.thread;
    if t < |s.pcs| {
      assert Knows(s.words, s.pcs[t]);
      ReadersUpdate(s.pcs, t, Step(s, turn).pcs[t]);
      ReadsAfter(s.pcs[t], turn.write, s.words);
    }
  }

  lemma ShutAdmitsNobody(s: State, turn: Turn)
    requires Good(s) && Shut(s)
    ensures !Admits(s, turn)
  {
    hide Good, Admits;
    if Admits(s, turn) { OnlyStoreAdmits(s, turn); }
  }

  lemma StaysShut(s: State, turn: Turn)
    requires Good(s) && Shut(s)
    ensures Shut(Step(s, turn))
  {
    hide Counted, Asked, Knows;
    var t := turn.thread;
    if t < |s.pcs| {
      NobodyWrites(s, t);
      if s.words.writeRequest { RequestStays(s, turn); }
    }
  }

  // No run lets anybody in: neither another reader nor a writer.
  lemma {:induction false} ShutToAll(s: State, turns: seq<Turn>)
    requires Good(s) && Shut(s)
    ensures var s' := Run(s, turns);
            Writers(s'.pcs) == 0 && forall turn :: !Admits(s', turn)
    decreases |turns|
  {
    hide Good, Shut, Admits, Writers, Step;
    if turns == [] {
      forall turn ensures !Admits(s, turn) { ShutAdmitsNobody(s, turn); }
      ShutNow(s);
    } else {
      StepKeeps(s, turns[0]);
      StaysShut(s, turns[0]);
      ShutToAll(Step(s, turns[0]), turns[1..]);
    }
  }

  lemma ShutNow(s: State)
    requires Good(s) && Shut(s)
    ensures Writers(s.pcs) == 0
  {
    LostForGood(s, []);
  }

  // ---- The other way: a thread that is no writer gets in ----

  lemma ReadLater(s: State, turn: Turn)
    requires CanRead(Step(s, turn))
    ensures CanRead(s)
  {
    hide Admits;
    var more, last :| Admits(Run(Step(s, turn), more), last);
    assert ([turn] + more)[1..] == more;
    assert Run(s, [turn] + more) == Run(Step(s, turn), more);
  }

  function StepsToRead(pc: Pc): nat {
    match pc
    case ReadLeave => 10
    case Reading => 9
    case Release(_) => 8
    case DropReader => 7
    case Idle => 6
    case ReadRetry => 6
    case WantRead => 5
    case ReadTestWriters => 4
    case ReadTestRequest => 3
    case ReadLoad => 2
    case ReadStore(_) => 1
    case _ => 0
  }

  lemma {:induction false} ReaderGetsIn(s: State, t: nat)
    requires Good(s) && t < |s.pcs| && !WriterSide(s.pcs[t])
    requires s.words.numWriters == 0 && !s.words.writeRequest && (s.holder == None || s.holder == Some(t))
    ensures CanRead(s)
    decreases StepsToRead(s.pcs[t])
  {
    hide CanRead, Readers, Writers, Asked;
    var turn := Turn(t, false);
    assert Knows(s.words, s.pcs[t]);
    var s' := Step(s, turn);
    if s.pcs[t].ReadStore? {
      ReadersUpdate(s.pcs, t, s'.pcs[t]);
      AdmitsNow(s, turn);
    } else {
      StepKeeps(s, turn);
      ReaderGetsIn(s', t);
      ReadLater(s, turn);
    }
  }

  lemma AdmitsNow(s: State, turn: Turn)
    requires Admits(s, turn)
    ensures CanRead(s)
  {
    hide Admits;
    assert Run(s, []) == s;
  }

  // A decrement is lost, but nothing shuts the lock yet.
  lemma OpenLetsIn(s: State)
    requires Good(s) && s.droppedInside > 0 && !Shut(s)
    ensures CanRead(s)
  {
    hide CanRead, Readers, Writers, Counted, Asked, Knows;
    var t :| 0 <= t < |s.pcs| && !WriterSide(s.pcs[t]);
    NobodyWrites(s, t);
    if s.holder.Some? && WriterSide(s.pcs[s.holder.value]) {
      var h := s.holder.value;
      var turn := Turn(h, false);
      NobodyWrites(s, h);
      assert InsideSpinlock(s.pcs[h]);
      assert s.pcs[h].WriteRetry?;
      StepKeeps(s, turn);
      ReaderGetsIn(Step(s, turn), t);
      ReadLater(s, turn);
    } else {
      ReaderGetsIn(s, if s.holder.Some? then s.holder.value else t);
    }
  }

  // A waiting writer of a vacant lock takes its turn, and clears the request behind it.
  lemma WriterMakesWay(s: State, t: nat)
    requires Good(s) && Vacant(s) && t < |s.pcs| && s.pcs[t].WantWrite?
    ensures CanRead(s)
  {
    hide CanRead, Good;
    var turn := Turn(t, true);
    var s1 := Step(s, turn);
    var s2 := Step(s1, turn);
    var s3 := Step(s2, turn);
    var s4 := Step(s3, turn);
    StepKeeps(s, turn);
    StepKeeps(s1, turn);
    StepKeeps(s2, turn);
    StepKeeps(s3, turn);
    assert s4.pcs[t].WriteLeave? && s4.holder == Some(t) && s4.words.numWriters == 1;
    hide Step;
    WriterLeaves(s4, t);
    ReadLater(s3, turn);
    ReadLater(s2, turn);
    ReadLater(s1, turn);
    ReadLater(s, turn);
  }

  lemma WriterLeaves(s: State, t: nat)
    requires Good(s) && t < |s.pcs| && s.pcs[t].WriteLeave? && s.holder == Some(t) && s.words.numWriters == 1
    ensures CanRead(s)
  {
    hide CanRead, Good;
    var turn := Turn(t, true);
    var s1 := Step(s, turn);
    var s2 := Step(s1, turn);
    var s3 := Step(s2, turn);
    var s4 := Step(s3, turn);
    var s5 := Step(s4, turn);
    StepKeeps(s, turn);
    StepKeeps(s1, turn);
    StepKeeps(s2, turn);
    StepKeeps(s3, turn);
    StepKeeps(s4, turn);
    assert s5.pcs[t].Idle? && s5.holder == None && s5.words.numWriters == 0 && !s5.words.writeRequest;
    hide Step;
    ReaderGetsIn(s5, t);
    ReadLater(s4, turn);
    ReadLater(s3, turn);
    ReadLater(s2, turn);
    ReadLater(s1, turn);
    ReadLater(s, turn);
  }

  lemma VacantAdmits(s: State)
    requires Good(s) && Vacant(s) && Readers(s.pcs) == 0 && |s.pcs| > 0
    ensures CanRead(s)
  {
    hide CanRead, Readers, Writers;
    VacantPcs(s);
    if t :| 0 <= t < |s.pcs| && s.pcs[t].WantWrite? {
      WriterMakesWay(s, t);
    } else {
      assert !s.words.writeRequest;
      ReaderGetsIn(s, 0);
    }
  }

  lemma ReadsAgain(s: State)
    requires Good(s) && s.droppedInside == 0 && |s.pcs| > 0
    ensures CanRead(s)
  {
    hide Good, Vacant, Readers, Admits;
    Vacates(s);
    var more :| Vacated(Run(s, more));
    SameThreads(s, more);
    VacantAdmits(Run(s, more));
    var rest, turn :| Admits(Run(Run(s, more), rest), turn);
    RunJoins(s, more, rest);
  }

  // After any run of any number of threads: another reader can still get in exactly when no decrement is
  // lost, or no writer waits and is bound to.
  lemma ReaderGetsInExactly(threads: nat, turns: seq<Turn>)
    requires threads > 0
    ensures var s := Run(Init(threads), turns);
            CanRead(s) <==> !Shut(s)
  {
    hide Shut, Good, Admits;
    var s := Run(Init(threads), turns);
    StartIsGood(threads);
    RunKeeps(Init(threads), turns);
    SameThreads(Init(threads), turns);
    if Shut(s) {
      if CanRead(s) {
        var more, turn :| Admits(Run(s, more), turn);
        ShutToAll(s, more);
      }
    } else if s.droppedInside == 0 {
      ReadsAgain(s);
    } else {
      OpenLetsIn(s);
    }
  }

  // One thread asks to write while num_readers is 1 and nobody reads.
  lemma AsksInVain(s: State) returns (turns: seq<Turn>)
    requires s.pcs == [Idle, Idle] && s.words == Words(false, 1, 0, false) && s.holder.None?
    ensures var s' := Run(s, turns);
            s'.pcs == [WantWrite, Idle] && s'.words.writeRequest && s'.droppedInside == s.droppedInside
  {
    var turn := Turn(0, true);
    var s1 := Step(s, turn);
    var s2 := Step(s1, turn);
    var s3 := Step(s2, turn);
    var s4 := Step(s3, turn);
    var s5 := Step(s4, turn);
    assert s3.pcs == [WriteAsk, Idle] && s3.words == Words(true, 1, 0, false);
    assert s5.pcs == [WantWrite, Idle] && s5.words.writeRequest;
    turns := [turn, turn, turn, turn, turn];
    hide Step;
    assert turns[1..] == [turn, turn, turn, turn] && turns[1..][1..] == [turn, turn, turn];
    assert [turn, turn, turn][1..] == [turn, turn] && [turn, turn][1..] == [turn] && [turn][1..] == [];
    assert Run(s, turns) == Run(s2, [turn, turn, turn]);
    assert Run(s4, [turn]) == Run(s5, []) == s5;
    assert Run(s3, [turn, turn]) == Run(s4, [turn]);
  }

  // Two threads, none of them inside the lock, can shut it to readers and writers alike, for good.
  lemma ShutForGood()
    ensures exists turns :: var s := Run(Init(2), turns);
              s.pcs == [WantWrite, Idle] && !CanRead(s) && !CanWrite(s)
  {
    hide Good, Step, CanRead, CanWrite;
    DecrementCanBeLost();
    var before :| var s := Run(Init(2), before);
      s.pcs == [Idle, Idle] && s.words == Words(false, 1, 0, false) && s.droppedInside == 1;
    StartIsGood(2);
    RunKeeps(Init(2), before);
    assert Run(Init(2), before).holder.None? by { Unlocked(Run(Init(2), before)); }
    var last := AsksInVain(Run(Init(2), before));
    RunJoins(Init(2), before, last);
    ReaderGetsInExactly(2, before + last);
    WriterGetsInExactly(2, before + last);
  }

  lemma Unlocked(s: State)
    requires Good(s) && !s.words.locked
    ensures s.holder.None?
  {
  }
}
