// The reader/writer lock of kernel/ds/rwlock.c, as interleaved steps of any number of threads.
//
// Every access to a shared word is a step of its own. Only the two acquiring paths hold the spinlock;
// `rwlock_release` runs without it, and `num_readers += 1` is a load followed by a store.
module RwLock {
  import opened Options

  datatype Pc =
    | Idle
    // rwlock_get_write_access
    | WantWrite                   // about to take the spinlock
    | WriteTestReaders            // holds it, about to read num_readers
    | WriteTestWriters            // saw num_readers == 0
    | WriteTake                   // saw num_writers == 0 as well
    | WriteAsk                    // was refused, about to set write_request
    | WriteRetry                  // set it, about to give the spinlock back
    | WriteLeave                  // is the writer, about to give the spinlock back
    | Writing
    // rwlock_get_read_access
    | WantRead
    | ReadTestWriters
    | ReadTestRequest             // saw num_writers == 0
    | ReadRetry                   // was refused, about to give the spinlock back
    | ReadLoad                    // saw write_request == 0 as well
    | ReadStore(seen: int)        // has loaded num_readers
    | ReadLeave                   // is a reader, about to give the spinlock back
    | Reading
    // rwlock_release; the flag only remembers which access is given back
    | Release(writer: bool)
    | ClearRequest
    | ClearWriters
    | DropReader

  // The words of struct rwlock, and whether the spinlock is taken.
  datatype Words = Words(locked: bool, numReaders: int, numWriters: int, writeRequest: bool)

  // `holder` is the thread that has the spinlock, `droppedInside` counts the decrements that ran while
  // some thread stood between the load and the store of `num_readers += 1`. No step reads either.
  datatype State = State(pcs: seq<Pc>, words: Words, holder: Option<nat>, droppedInside: nat)

  // A turn lets one thread take one step; the flag says what an idle thread asks for.
  datatype Turn = Turn(thread: nat, write: bool)

  function Init(threads: nat): State {
    State(seq(threads, _ => Idle), Words(false, 0, 0, false), None, 0)
  }

  // One step of a thread at pc. A thread that finds the spinlock taken stays where it is.
  function Act(pc: Pc, write: bool, w: Words): (Pc, Words) {
    match pc
    case Idle => (if write then WantWrite else WantRead, w)

    case WantWrite => if w.locked then (pc, w) else (WriteTestReaders, w.(locked := true))
    case WriteTestReaders => (if w.numReaders == 0 then WriteTestWriters else WriteAsk, w)
    case WriteTestWriters => (if w.numWriters == 0 then WriteTake else WriteAsk, w)
    case WriteTake => (WriteLeave, w.(numWriters := w.numWriters + 1))
    case WriteAsk => (WriteRetry, w.(writeRequest := true))
    case WriteRetry => (WantWrite, w.(locked := false))
    case WriteLeave => (Writing, w.(locked := false))
    case Writing => (Release(true), w)

    case WantRead => if w.locked then (pc, w) else (ReadTestWriters, w.(locked := true))
    case ReadTestWriters => (if w.numWriters == 0 then ReadTestRequest else ReadRetry, w)
    case ReadTestRequest => (if w.writeRequest then ReadRetry else ReadLoad, w)
    case ReadRetry => (WantRead, w.(locked := false))
    case ReadLoad => (ReadStore(w.numReaders), w)
    case ReadStore(seen) => (ReadLeave, w.(numReaders := seen + 1))
    case ReadLeave => (Reading, w.(locked := false))
    case Reading => (Release(false), w)

    case Release(_) => (if w.numWriters != 0 then ClearRequest else DropReader, w)
    case ClearRequest => (ClearWriters, w.(writeRequest := false))
    case ClearWriters => (Idle, w.(numWriters := 0))
    case DropReader => (Idle, w.(numReaders := w.numReaders - 1))
  }

  // The value some thread has loaded and not yet stored back.
  function Pending(s: State): Option<int> {
    if s.holder.Some? && s.holder.value < |s.pcs| && s.pcs[s.holder.value].ReadStore?
    then Some(s.pcs[s.holder.value].seen) else None
  }

  function Step(s: State, turn: Turn): State {
    var t := turn.thread;
    if t >= |s.pcs| then s else
    var (pc, words) := Act(s.pcs[t], turn.write, s.words);
    State(s.pcs[t := pc],
          words,
          if !words.locked then None else if s.words.locked then s.holder else Some(t),
          s.droppedInside + if s.pcs[t].DropReader? && Pending(s).Some? then 1 else 0)
  }

  function Run(s: State, turns: seq<Turn>): State
    decreases |turns|
  {
    if turns == [] then s else Run(Step(s, turns[0]), turns[1..])
  }

  // ---- Who holds what ----

  // From the store that adds the reader to the decrement that removes it.
  predicate Reads(pc: Pc) {
    pc.ReadLeave? || pc.Reading? || pc == Release(false) || pc.DropReader?
  }

  // From the increment of num_writers to the store that clears it.
  predicate Writes(pc: Pc) {
    pc.WriteLeave? || pc.Writing? || pc == Release(true) || pc.ClearRequest? || pc.ClearWriters?
  }

  predicate InsideSpinlock(pc: Pc) {
    pc.WriteTestReaders? || pc.WriteTestWriters? || pc.WriteTake? || pc.WriteAsk? || pc.WriteRetry? ||
    pc.WriteLeave? || pc.ReadTestWriters? || pc.ReadTestRequest? || pc.ReadRetry? || pc.ReadLoad? ||
    pc.ReadStore? || pc.ReadLeave?
  }

  // A writer that is waiting, holding, or has not yet cleared the request it will clear on release.
  predicate WriterAbout(pc: Pc) {
    pc.WantWrite? || pc.WriteTestReaders? || pc.WriteTestWriters? || pc.WriteTake? || pc.WriteAsk? ||
    pc.WriteRetry? || pc.WriteLeave? || pc.Writing? || pc == Release(true) || pc.ClearRequest?
  }

  function Readers(pcs: seq<Pc>): nat {
    if pcs == [] then 0 else Readers(pcs[..|pcs| - 1]) + if Reads(pcs[|pcs| - 1]) then 1 else 0
  }

  function Writers(pcs: seq<Pc>): nat {
    if pcs == [] then 0 else Writers(pcs[..|pcs| - 1]) + if Writes(pcs[|pcs| - 1]) then 1 else 0
  }

  lemma {:induction false} ReadersUpdate(pcs: seq<Pc>, t: nat, pc: Pc)
    requires t < |pcs|
    ensures Readers(pcs[t := pc]) ==
            Readers(pcs) - (if Reads(pcs[t]) then 1 else 0) + (if Reads(pc) then 1 else 0)
  {
    var n := |pcs| - 1;
    if t < n {
      ReadersUpdate(pcs[..n], t, pc);
      assert pcs[t := pc][..n] == pcs[..n][t := pc];
    } else {
      assert pcs[t := pc][..n] == pcs[..n];
    }
  }

  lemma {:induction false} WritersUpdate(pcs: seq<Pc>, t: nat, pc: Pc)
    requires t < |pcs|
    ensures Writers(pcs[t := pc]) ==
            Writers(pcs) - (if Writes(pcs[t]) then 1 else 0) + (if Writes(pc) then 1 else 0)
  {
    var n := |pcs| - 1;
    if t < n {
      WritersUpdate(pcs[..n], t, pc);
      assert pcs[t := pc][..n] == pcs[..n][t := pc];
    } else {
      assert pcs[t := pc][..n] == pcs[..n];
    }
  }

  lemma {:induction false} SomeReads(pcs: seq<Pc>, t: nat)
    requires t < |pcs| && Reads(pcs[t])
    ensures Readers(pcs) > 0
  {
    if t < |pcs| - 1 {
      SomeReads(pcs[..|pcs| - 1], t);
    }
  }

  lemma {:induction false} SomeWrites(pcs: seq<Pc>, t: nat)
    requires t < |pcs| && Writes(pcs[t])
    ensures Writers(pcs) > 0
  {
    if t < |pcs| - 1 {
      SomeWrites(pcs[..|pcs| - 1], t);
    }
  }

  lemma {:induction false} TwoWrite(pcs: seq<Pc>, t: nat, u: nat)
    requires t < u < |pcs| && Writes(pcs[t]) && Writes(pcs[u])
    ensures Writers(pcs) > 1
  {
    if u < |pcs| - 1 {
      TwoWrite(pcs[..|pcs| - 1], t, u);
    } else {
      SomeWrites(pcs[..u], t);
    }
  }

  lemma {:induction false} NobodyYet(threads: nat)
    ensures Readers(Init(threads).pcs) == 0 && Writers(Init(threads).pcs) == 0
  {
    if threads > 0 {
      assert Init(threads).pcs[..threads - 1] == Init(threads - 1).pcs;
      NobodyYet(threads - 1);
    }
  }

  // ---- The invariant ----

  // The spinlock's owner is the one thread inside it.
  ghost predicate SpinlockOk(s: State) {
    && (s.holder.Some? <==> s.words.locked)
    && (s.holder.Some? ==> s.holder.value < |s.pcs|)
    && forall t :: 0 <= t < |s.pcs| ==> (InsideSpinlock(s.pcs[t]) <==> s.holder == Some(t))
  }

  // What a thread knows from the tests it has made.
  predicate Knows(w: Words, pc: Pc) {
    && (pc.WriteTestWriters? ==> w.numReaders == 0)
    && (pc.WriteTake? ==> w.numReaders == 0 && w.numWriters == 0)
    && (pc.ReadTestRequest? ==> w.numWriters == 0)
    && (pc.ReadLoad? || pc.ReadStore? || pc.ReadLeave? ==> w.numWriters == 0 && !w.writeRequest)
    && (pc.ReadStore? ==> pc.seen >= w.numReaders)
    && (pc.Release? ==> (pc.writer <==> w.numWriters != 0))
    && (Writes(pc) ==> w.numWriters != 0 && w.numReaders == 0)
    && (Reads(pc) ==> w.numWriters == 0)
  }

  // num_writers is the number of writers, at most one; num_readers, once a pending store is counted
  // with the value it will write over, is the number of readers plus every decrement lost to such a store.
  predicate Counts(w: Words, pending: Option<int>, readers: nat, writers: nat, dropped: nat) {
    && w.numWriters == writers <= 1
    && (if pending.Some? then pending.value else w.numReaders) == readers + dropped
    && w.numReaders >= readers
    && (w.numWriters != 0 ==> pending.None? && w.numReaders == 0)
  }

  ghost predicate Counted(s: State) {
    Counts(s.words, Pending(s), Readers(s.pcs), Writers(s.pcs), s.droppedInside)
  }

  ghost predicate Asked(s: State) {
    s.words.writeRequest ==> exists t :: 0 <= t < |s.pcs| && WriterAbout(s.pcs[t])
  }

  ghost predicate Good(s: State) {
    && SpinlockOk(s)
    && (forall t :: 0 <= t < |s.pcs| ==> Knows(s.words, s.pcs[t]))
    && Counted(s)
    && Asked(s)
  }

  function One(b: bool): int { if b then 1 else 0 }

  // A step of rwlock_get_write_access.
  predicate WriterSide(pc: Pc) {
    pc.WantWrite? || pc.WriteTestReaders? || pc.WriteTestWriters? || pc.WriteTake? || pc.WriteAsk? ||
    pc.WriteRetry? || pc.WriteLeave? || pc.Writing?
  }

  lemma WriterKeepsCounts(pc: Pc, write: bool, w: Words, pending: Option<int>,
                          readers: nat, writers: nat, dropped: nat)
    requires Counts(w, pending, readers, writers, dropped) && Knows(w, pc) && WriterSide(pc)
    requires InsideSpinlock(pc) ==> pending == None
    ensures var (pc', w') := Act(pc, write, w);
            var writers' := writers - One(Writes(pc)) + One(Writes(pc'));
            && !Reads(pc) && !Reads(pc') && !pc'.ReadStore? && writers' >= 0
            && Counts(w', pending, readers, writers', dropped)
  {
  }

  lemma OtherKeepsCounts(pc: Pc, write: bool, w: Words, pending: Option<int>,
                         readers: nat, writers: nat, dropped: nat)
    requires Counts(w, pending, readers, writers, dropped) && Knows(w, pc) && !WriterSide(pc)
    requires InsideSpinlock(pc) ==> pending == if pc.ReadStore? then Some(pc.seen) else None
    requires Reads(pc) ==> readers > 0
    ensures var (pc', w') := Act(pc, write, w);
            var pending' := if pc'.ReadStore? then Some(pc'.seen) else if pc.ReadStore? then None else pending;
            var readers' := readers - One(Reads(pc)) + One(Reads(pc'));
            var writers' := writers - One(Writes(pc)) + One(Writes(pc'));
            && readers' >= 0 && writers' >= 0
            && Counts(w', pending', readers', writers', dropped + One(pc.DropReader? && pending.Some?))
  {
  }

  lemma StepKeepsSpinlock(s: State, turn: Turn)
    requires SpinlockOk(s)
    ensures SpinlockOk(Step(s, turn))
  {
    var t := turn.thread;
    if t < |s.pcs| {
      var (pc, w) := Act(s.pcs[t], turn.write, s.words);
      assert InsideSpinlock(pc) ==> w.locked && (InsideSpinlock(s.pcs[t]) || !s.words.locked);
      assert InsideSpinlock(s.pcs[t]) && !InsideSpinlock(pc) ==> !w.locked;
      assert !InsideSpinlock(s.pcs[t]) && !InsideSpinlock(pc) ==> w.locked == s.words.locked;
      hide Act;
      assert forall u :: 0 <= u < |s.pcs| && u != t ==> Step(s, turn).pcs[u] == s.pcs[u];
    }
  }

  lemma StepKeepsAsked(s: State, turn: Turn)
    requires Asked(s)
    requires turn.thread < |s.pcs| ==> Knows(s.words, s.pcs[turn.thread])
    ensures Asked(Step(s, turn))
  {
    var s' := Step(s, turn);
    var t := turn.thread;
    if s'.words.writeRequest && t < |s.pcs| {
      var (pc, w) := Act(s.pcs[t], turn.write, s.words);
      assert WriterAbout(pc) || (s.words.writeRequest && !WriterAbout(s.pcs[t]));
      hide Act;
      if WriterAbout(pc) {
        assert WriterAbout(s'.pcs[t]);
      } else {
        var u :| 0 <= u < |s.pcs| && WriterAbout(s.pcs[u]);
        assert WriterAbout(s'.pcs[u]);
      }
    }
  }

  lemma StepKeepsCounted(s: State, turn: Turn)
    requires SpinlockOk(s) && Counted(s)
    requires turn.thread < |s.pcs| ==> Knows(s.words, s.pcs[turn.thread])
    ensures Counted(Step(s, turn))
  {
    hide Act, Readers, Writers, Counts, Knows;
    var t := turn.thread;
    if t < |s.pcs| {
      var pc := s.pcs[t];
      var (pc', w') := Act(pc, turn.write, s.words);
      ReadersUpdate(s.pcs, t, pc');
      WritersUpdate(s.pcs, t, pc');
      if Reads(pc) { SomeReads(s.pcs, t); }
      if WriterSide(pc) {
        WriterKeepsCounts(pc, turn.write, s.words, Pending(s), Readers(s.pcs), Writers(s.pcs), s.droppedInside);
      } else {
        OtherKeepsCounts(pc, turn.write, s.words, Pending(s), Readers(s.pcs), Writers(s.pcs), s.droppedInside);
      }
      StepKeepsSpinlock(s, turn);
    }
  }

  // A step of another thread takes nothing from what a thread knows.
  lemma ActKeepsKnown(pc: Pc, write: bool, w: Words, other: Pc)
    requires Knows(w, pc) && Knows(w, other)
    requires !(InsideSpinlock(pc) && InsideSpinlock(other))
    requires !(Writes(pc) && Writes(other))
    requires Reads(pc) || Reads(other) ==> w.numReaders > 0
    ensures Knows(Act(pc, write, w).1, other)
  {
  }

  lemma WriterKnows(pc: Pc, write: bool, w: Words)
    requires Knows(w, pc) && WriterSide(pc)
    ensures Knows(Act(pc, write, w).1, Act(pc, write, w).0)
  {
  }

  lemma OtherKnows(pc: Pc, write: bool, w: Words)
    requires Knows(w, pc) && !WriterSide(pc)
    ensures Knows(Act(pc, write, w).1, Act(pc, write, w).0)
  {
  }

  lemma ActKnows(pc: Pc, write: bool, w: Words)
    requires Knows(w, pc)
    ensures Knows(Act(pc, write, w).1, Act(pc, write, w).0)
  {
    hide Knows, Act;
    if WriterSide(pc) { WriterKnows(pc, write, w); } else { OtherKnows(pc, write, w); }
  }

  lemma StepKeepsKnows(s: State, turn: Turn, u: nat)
    requires Good(s) && u < |s.pcs|
    ensures Knows(Step(s, turn).words, Step(s, turn).pcs[u])
  {
    hide Act, Readers, Writers, Knows;
    var t := turn.thread;
    if t < |s.pcs| {
      if t < u && Writes(s.pcs[t]) && Writes(s.pcs[u]) { TwoWrite(s.pcs, t, u); }
      if u < t && Writes(s.pcs[t]) && Writes(s.pcs[u]) { TwoWrite(s.pcs, u, t); }
      if t == u {
        ActKnows(s.pcs[t], turn.write, s.words);
      } else {
        if Reads(s.pcs[t]) { SomeReads(s.pcs, t); }
        if Reads(s.pcs[u]) { SomeReads(s.pcs, u); }
        ActKeepsKnown(s.pcs[t], turn.write, s.words, s.pcs[u]);
      }
    }
  }

  lemma StepKeeps(s: State, turn: Turn)
    requires Good(s)
    ensures Good(Step(s, turn))
  {
    hide SpinlockOk, Counted, Asked, Act, Knows;
    StepKeepsSpinlock(s, turn);
    StepKeepsAsked(s, turn);
    StepKeepsCounted(s, turn);
    forall u | 0 <= u < |s.pcs|
      ensures Knows(Step(s, turn).words, Step(s, turn).pcs[u])
    {
      StepKeepsKnows(s, turn, u);
    }
  }

  lemma {:induction false} RunKeeps(s: State, turns: seq<Turn>)
    requires Good(s)
    ensures Good(Run(s, turns))
    decreases |turns|
  {
    if turns != [] {
      StepKeeps(s, turns[0]);
      RunKeeps(Step(s, turns[0]), turns[1..]);
    }
  }

  lemma StartIsGood(threads: nat)
    ensures Good(Init(threads))
  {
    NobodyYet(threads);
  }

  // ---- Over every run from the start, with any number of threads ----

  // A writer never overlaps a reader or another writer, num_readers never falls below the number of
  // readers, and each release takes the branch of the access that is being given back.
  lemma Exclusion(threads: nat, turns: seq<Turn>)
    ensures var s := Run(Init(threads), turns);
            && s.words.numReaders >= Readers(s.pcs)
            && s.words.numWriters == Writers(s.pcs) <= 1
            && (forall t, u :: 0 <= t < |s.pcs| && 0 <= u < |s.pcs| && t != u && Writes(s.pcs[t]) ==>
                  !Writes(s.pcs[u]) && !Reads(s.pcs[u]))
            && (forall t :: 0 <= t < |s.pcs| && s.pcs[t].Release? ==>
                  (s.pcs[t].writer <==> s.words.numWriters != 0))
  {
    StartIsGood(threads);
    RunKeeps(Init(threads), turns);
    var s := Run(Init(threads), turns);
    forall t, u | 0 <= t < |s.pcs| && 0 <= u < |s.pcs| && t != u && Writes(s.pcs[t])
      ensures !Writes(s.pcs[u]) && !Reads(s.pcs[u])
    {
      assert Knows(s.words, s.pcs[t]) && Knows(s.words, s.pcs[u]);
      if Writes(s.pcs[u]) {
        if t < u { TwoWrite(s.pcs, t, u); } else { TwoWrite(s.pcs, u, t); }
      }
    }
  }

  // A set request always has a writer behind it: one that waits, holds the lock, or is about to clear it.
  lemma RequestHasWriter(threads: nat, turns: seq<Turn>)
    requires Run(Init(threads), turns).words.writeRequest
    ensures exists t :: 0 <= t < |Run(Init(threads), turns).pcs| && WriterAbout(Run(Init(threads), turns).pcs[t])
  {
    StartIsGood(threads);
    RunKeeps(Init(threads), turns);
  }

  // Readers are conserved up to the decrements lost inside `num_readers += 1`.
  lemma Conservation(threads: nat, turns: seq<Turn>)
    ensures var s := Run(Init(threads), turns);
            Pending(s).None? ==> s.words.numReaders == Readers(s.pcs) + s.droppedInside
  {
    StartIsGood(threads);
    RunKeeps(Init(threads), turns);
  }

  // ---- Writer preference ----

  // No thread becomes a writer during the run.
  predicate NoWriterDuring(s: State, turns: seq<Turn>)
    decreases |turns|
  {
    s.words.numWriters == 0 && (turns == [] || NoWriterDuring(Step(s, turns[0]), turns[1..]))
  }

  // While the request is set and nobody holds the lock for writing, no reader is let in until a writer is.
  lemma {:induction false} WriterFirst(s: State, turns: seq<Turn>)
    requires Good(s) && s.words.writeRequest && NoWriterDuring(s, turns)
    ensures Run(s, turns).words.writeRequest && |Run(s, turns).pcs| == |s.pcs|
    ensures forall t :: 0 <= t < |s.pcs| && Reads(Run(s, turns).pcs[t]) ==> Reads(s.pcs[t])
    decreases |turns|
  {
    if turns != [] {
      StepKeeps(s, turns[0]);
      RequestStays(s, turns[0]);
      WriterFirst(Step(s, turns[0]), turns[1..]);
    }
  }

  lemma RequestStays(s: State, turn: Turn)
    requires Good(s) && s.words.writeRequest && s.words.numWriters == 0
    ensures var s' := Step(s, turn);
            && s'.words.writeRequest && |s'.pcs| == |s.pcs|
            && forall t :: 0 <= t < |s.pcs| && Reads(s'.pcs[t]) ==> Reads(s.pcs[t])
  {
    hide SpinlockOk, Counted, Asked;
    var t := turn.thread;
    if t < |s.pcs| {
      assert Knows(s.words, s.pcs[t]);
    }
  }

  // About to find out whether it may write.
  predicate Attempts(pc: Pc) {
    pc.WriteTestReaders? || pc.WriteTestWriters? || pc.WriteTake? || pc.WriteAsk?
  }

  predicate AsksOrWrites(s: State, t: nat) {
    t < |s.pcs| && (s.words.writeRequest || Writes(s.pcs[t]))
  }

  lemma RunFrom(s: State, turns: seq<Turn>, k: nat)
    requires 0 < k <= |turns|
    ensures Run(s, turns[..k]) == Run(Step(s, turns[0]), turns[1..][..k - 1])
  {
    assert turns[..k][1..] == turns[1..][..k - 1];
  }

  // A thread that is refused asks first: over every run, before a thread gives the spinlock back that took
  // it to write, it is a writer or write_request is set at some moment.
  lemma {:induction false} RefusedAsks(s: State, turns: seq<Turn>, t: nat)
    requires t < |s.pcs| && Attempts(s.pcs[t])
    requires t < |Run(s, turns).pcs| && !InsideSpinlock(Run(s, turns).pcs[t])
    ensures exists k :: 0 <= k <= |turns| && AsksOrWrites(Run(s, turns[..k]), t)
    decreases |turns|
  {
    var s' := Step(s, turns[0]);
    RunFrom(s, turns, 1);
    assert Run(s', turns[1..][..0]) == s';
    if Attempts(s'.pcs[t]) {
      RefusedAsks(s', turns[1..], t);
      var k :| 0 <= k <= |turns| - 1 && AsksOrWrites(Run(s', turns[1..][..k]), t);
      RunFrom(s, turns, k + 1);
    } else {
      assert AsksOrWrites(s', t);
    }
  }

  // ---- If the increment were one step ----

  // A turn that loads also stores.
  function FusedStep(s: State, turn: Turn): State {
    var s' := Step(s, turn);
    if turn.thread < |s.pcs| && s.pcs[turn.thread].ReadLoad? then Step(s', turn) else s'
  }

  function FusedRun(s: State, turns: seq<Turn>): State
    decreases |turns|
  {
    if turns == [] then s else FusedRun(FusedStep(s, turns[0]), turns[1..])
  }

  // The same run, turn by turn.
  function Unfused(s: State, turns: seq<Turn>): (all: seq<Turn>)
    decreases |turns|
  {
    if turns == [] then []
    else
      var loads := turns[0].thread < |s.pcs| && s.pcs[turns[0].thread].ReadLoad?;
      (if loads then [turns[0], turns[0]] else [turns[0]]) + Unfused(FusedStep(s, turns[0]), turns[1..])
  }

  lemma {:induction false} FusedIsARun(s: State, turns: seq<Turn>)
    ensures FusedRun(s, turns) == Run(s, Unfused(s, turns))
    decreases |turns|
  {
    if turns != [] {
      var rest := Unfused(FusedStep(s, turns[0]), turns[1..]);
      FusedIsARun(FusedStep(s, turns[0]), turns[1..]);
      assert ([turns[0]] + rest)[1..] == rest;
      assert ([turns[0], turns[0]] + rest)[1..] == [turns[0]] + rest;
    }
  }

  lemma {:induction false} FusedRunExact(s: State, turns: seq<Turn>)
    requires Good(s) && s.droppedInside == 0 && forall t :: 0 <= t < |s.pcs| ==> !s.pcs[t].ReadStore?
    ensures FusedRun(s, turns).words.numReaders == Readers(FusedRun(s, turns).pcs)
    decreases |turns|
  {
    if turns != [] {
      StepKeeps(s, turns[0]);
      StepKeeps(Step(s, turns[0]), turns[0]);
      FusedStepKeeps(s, turns[0]);
      FusedRunExact(FusedStep(s, turns[0]), turns[1..]);
    }
  }

  lemma FusedStepKeeps(s: State, turn: Turn)
    requires forall t :: 0 <= t < |s.pcs| ==> !s.pcs[t].ReadStore?
    ensures var s' := FusedStep(s, turn);
            && s'.droppedInside == s.droppedInside
            && forall t :: 0 <= t < |s'.pcs| ==> !s'.pcs[t].ReadStore?
  {
  }

  // num_readers is exactly the number of readers, after every run whose increments are one step.
  lemma AtomicIncrement(threads: nat, turns: seq<Turn>)
    ensures FusedRun(Init(threads), turns).words.numReaders == Readers(FusedRun(Init(threads), turns).pcs)
  {
    StartIsGood(threads);
    FusedRunExact(Init(threads), turns);
  }

  // ---- A lost decrement ----

  // Once a decrement is lost, no thread is ever a writer again, whatever the threads do.
  lemma {:induction false} LostForGood(s: State, turns: seq<Turn>)
    requires Good(s) && s.droppedInside > 0
    ensures var s' := Run(s, turns);
            s'.droppedInside > 0 && s'.words.numWriters == 0 && Writers(s'.pcs) == 0
    decreases |turns|
  {
    if turns == [] {
    } else {
      StepKeeps(s, turns[0]);
      LostForGood(Step(s, turns[0]), turns[1..]);
    }
  }

  function Turns(t: nat, n: nat): (turns: seq<Turn>) {
    seq(n, _ => Turn(t, false))
  }

  // n turns of thread t, which asks to read.
  function Steps(s: State, t: nat, n: nat): State
    decreases n
  {
    if n == 0 then s else Steps(Step(s, Turn(t, false)), t, n - 1)
  }

  lemma {:induction false} RunSteps(s: State, t: nat, n: nat, rest: seq<Turn>)
    ensures Run(s, Turns(t, n) + rest) == Run(Steps(s, t, n), rest)
    decreases n
  {
    if n == 0 {
      assert Turns(t, n) + rest == rest;
    } else {
      assert (Turns(t, n) + rest)[1..] == Turns(t, n - 1) + rest;
      RunSteps(Step(s, Turn(t, false)), t, n - 1, rest);
    }
  }

  function Two(a: Pc, b: Pc, locked: bool, readers: int, holder: Option<nat>, dropped: nat): State {
    State([a, b], Words(locked, readers, 0, false), holder, dropped)
  }

  // The next of n turns of thread t.
  lemma Next(a: Pc, b: Pc, locked: bool, readers: int, holder: Option<nat>, dropped: nat, t: nat, n: nat)
    requires t < 2 && n > 0
    ensures var pc := if t == 0 then a else b;
            var s := Two(a, b, locked, readers, holder, dropped);
            var (pc', w) := Act(pc, false, s.words);
            Steps(s, t, n) ==
            Steps(State(if t == 0 then [pc', b] else [a, pc'], w,
                        if !w.locked then None else if locked then holder else Some(t),
                        dropped + if pc.DropReader? && Pending(s).Some? then 1 else 0), t, n - 1)
  {
    var s := Two(a, b, locked, readers, holder, dropped);
    var (pc, w) := Act(if t == 0 then a else b, false, s.words);
    assert [a, b][0 := pc] == [pc, b] && [a, b][1 := pc] == [a, pc];
    assert Steps(s, t, n) == Steps(Step(s, Turn(t, false)), t, n - 1);
  }

  lemma Asks()
    ensures Steps(Two(Idle, Idle, false, 0, None, 0), 1, 7) == Steps(Two(Idle, ReadLoad, true, 0, Some(1), 0), 1, 3)
  {
    hide Step, Steps, Pending;
    Next(Idle, Idle, false, 0, None, 0, 1, 7);
    Next(Idle, WantRead, false, 0, None, 0, 1, 6);
    Next(Idle, ReadTestWriters, true, 0, Some(1), 0, 1, 5);
    Next(Idle, ReadTestRequest, true, 0, Some(1), 0, 1, 4);
  }

  lemma Enters()
    ensures Steps(Two(Idle, Idle, false, 0, None, 0), 1, 7) == Two(Idle, Reading, false, 1, None, 0)
  {
    hide Step, Steps, Pending;
    Asks();
    Next(Idle, ReadLoad, true, 0, Some(1), 0, 1, 3);
    Next(Idle, ReadStore(0), true, 0, Some(1), 0, 1, 2);
    Next(Idle, ReadLeave, true, 1, Some(1), 0, 1, 1);
    Done(Two(Idle, Reading, false, 1, None, 0), 1);
  }

  lemma Loads()
    ensures Steps(Two(Idle, Reading, false, 1, None, 0), 0, 5) == Two(ReadStore(1), Reading, true, 1, Some(0), 0)
  {
    hide Step, Steps, Pending;
    Next(Idle, Reading, false, 1, None, 0, 0, 5);
    Next(WantRead, Reading, false, 1, None, 0, 0, 4);
    Next(ReadTestWriters, Reading, true, 1, Some(0), 0, 0, 3);
    Next(ReadTestRequest, Reading, true, 1, Some(0), 0, 0, 2);
    Next(ReadLoad, Reading, true, 1, Some(0), 0, 0, 1);
    Done(Two(ReadStore(1), Reading, true, 1, Some(0), 0), 0);
  }

  lemma Drops()
    ensures Steps(Two(ReadStore(1), Reading, true, 1, Some(0), 0), 1, 3) == Two(ReadStore(1), Idle, true, 0, Some(0), 1)
  {
    hide Step, Steps;
    Next(ReadStore(1), Reading, true, 1, Some(0), 0, 1, 3);
    Next(ReadStore(1), Release(false), true, 1, Some(0), 0, 1, 2);
    Next(ReadStore(1), DropReader, true, 1, Some(0), 0, 1, 1);
    Done(Two(ReadStore(1), Idle, true, 0, Some(0), 1), 1);
  }

  lemma Leaves()
    ensures Steps(Two(Reading, Idle, false, 2, None, 1), 0, 3) == Two(Idle, Idle, false, 1, None, 1)
  {
    hide Step, Steps;
    Next(Reading, Idle, false, 2, None, 1, 0, 3);
    Next(Release(false), Idle, false, 2, None, 1, 0, 2);
    Next(DropReader, Idle, false, 2, None, 1, 0, 1);
    Done(Two(Idle, Idle, false, 1, None, 1), 0);
  }

  lemma Stores()
    ensures Steps(Two(ReadStore(1), Idle, true, 0, Some(0), 1), 0, 5) == Two(Idle, Idle, false, 1, None, 1)
  {
    hide Step, Steps;
    Next(ReadStore(1), Idle, true, 0, Some(0), 1, 0, 5);
    Next(ReadLeave, Idle, true, 2, Some(0), 1, 0, 4);
    Leaves();
  }

  lemma Done(s: State, t: nat)
    ensures Steps(s, t, 0) == s
  {
  }

  // Two readers suffice to lose one: in the end nobody reads and num_readers is 1.
  lemma DecrementCanBeLost()
    ensures exists turns :: var s := Run(Init(2), turns);
              s.pcs == [Idle, Idle] && s.words == Words(false, 1, 0, false) && s.droppedInside == 1
  {
    hide Step, Steps;
    assert Init(2).pcs == [Idle, Idle];
    Enters();
    Loads();
    Drops();
    Stores();
    var last := Turns(0, 5) + [];
    var third := Turns(1, 3) + last;
    var second := Turns(0, 5) + third;
    RunSteps(Init(2), 1, 7, second);
    var s1 := Steps(Init(2), 1, 7);
    RunSteps(s1, 0, 5, third);
    var s2 := Steps(s1, 0, 5);
    RunSteps(s2, 1, 3, last);
    RunSteps(Steps(s2, 1, 3), 0, 5, []);
  }

  // So an idle lock can be shut to writers for good, though nobody reads.
  lemma ShutToWriters()
    ensures exists turns :: var s := Run(Init(2), turns);
              s.pcs == [Idle, Idle] && forall more :: Writers(Run(s, more).pcs) == 0
  {
    DecrementCanBeLost();
    var turns :| var s := Run(Init(2), turns);
      s.pcs == [Idle, Idle] && s.words == Words(false, 1, 0, false) && s.droppedInside == 1;
    var s := Run(Init(2), turns);
    StartIsGood(2);
    RunKeeps(Init(2), turns);
    forall more ensures Writers(Run(s, more).pcs) == 0 {
      LostForGood(s, more);
    }
  }
}
