// The growing and shrinking ring of kernel/ds/iqueue.c.
module Iqueue {
  import opened Multiples

  // ---- When shrinking is safe ----

  // The sizes alone. An operation says whether its flag forbids resizing, and whether kmalloc has room.
  datatype Sizes = Sizes(size: nat, count: nat)

  datatype Op = Add(resize: bool) | Next(resize: bool)

  predicate Enabled(s: Sizes, op: Op) {
    op.Next? ==> s.count > 0
  }

  function AddSizes(s: Sizes, grow: nat, resize: bool): Sizes {
    if s.count < s.size then s.(count := s.count + 1)
    else if grow == 0 || !resize then s
    else Sizes(s.size + grow, s.count + 1)
  }

  // Whether iqueue_next shrinks, with this many elements left.
  predicate Shrinks(size: nat, count: nat, initial: nat, grow: nat) {
    grow != 0 && size > initial && count % grow == 0
  }

  function NextSizes(s: Sizes, initial: nat, grow: nat, resize: bool): Sizes
    requires s.count > 0
  {
    if resize && Shrinks(s.size, s.count - 1, initial, grow)
    then Sizes(if s.size >= grow then s.size - grow else 0, s.count - 1)
    else s.(count := s.count - 1)
  }

  function Apply(s: Sizes, op: Op, initial: nat, grow: nat): Sizes
    requires Enabled(s, op)
  {
    match op
    case Add(resize) => AddSizes(s, grow, resize)
    case Next(resize) => NextSizes(s, initial, grow, resize)
  }

  function Run(s: Sizes, ops: seq<Op>, initial: nat, grow: nat): Sizes
    decreases |ops|
  {
    if ops == [] then s
    else Run(if Enabled(s, ops[0]) then Apply(s, ops[0], initial, grow) else s, ops[1..], initial, grow)
  }

  // The copy of the shrinking queue writes past its end.
  predicate Overruns(s: Sizes, op: Op, initial: nat, grow: nat) {
    op.Next? && s.count > 0 && op.resize && Shrinks(s.size, s.count - 1, initial, grow) && s.count - 1 > s.size - grow
  }

  predicate Even(initial: nat, grow: nat) {
    grow == 0 || initial % grow == 0
  }

  ghost predicate SizeOk(s: Sizes, initial: nat, grow: nat) {
    && s.count <= s.size && s.size >= initial
    && (grow == 0 ==> s.size == initial)
    && (grow > 0 ==> s.size % grow == 0)
  }

  // With sizes that are multiples of grow, a multiple of grow below the size is below the smaller size.
  lemma RoomToShrink(size: nat, count: nat, grow: int)
    requires grow > 0 && size % grow == 0 && count % grow == 0 && count < size
    ensures count <= size - grow && (size - grow) % grow == 0 && (size + grow) % grow == 0
  {
    SumOfMultiples(size, count, grow);
    AtLeastOne(size - count, grow);
    Step(size, grow);
  }

  lemma Step(size: nat, grow: int)
    requires grow > 0 && size % grow == 0
    ensures (size - grow) % grow == 0 && (size + grow) % grow == 0
  {
    Scaled(1, grow);
    SumOfMultiples(size, grow, grow);
  }

  lemma StepKeeps(s: Sizes, op: Op, initial: nat, grow: nat)
    requires Even(initial, grow) && SizeOk(s, initial, grow) && Enabled(s, op)
    ensures SizeOk(Apply(s, op, initial, grow), initial, grow) && !Overruns(s, op, initial, grow)
  {
    if grow > 0 {
      Step(s.size, grow);
      if op.Next? && Shrinks(s.size, s.count - 1, initial, grow) {
        RoomToShrink(s.size, s.count - 1, grow);
        RoomToShrink(s.size, initial, grow);
      }
    }
  }

  lemma {:induction false} RunKeeps(s: Sizes, ops: seq<Op>, initial: nat, grow: nat)
    requires Even(initial, grow) && SizeOk(s, initial, grow)
    ensures SizeOk(Run(s, ops, initial, grow), initial, grow)
    decreases |ops|
  {
    if ops != [] {
      if Enabled(s, ops[0]) { StepKeeps(s, ops[0], initial, grow); }
      RunKeeps(if Enabled(s, ops[0]) then Apply(s, ops[0], initial, grow) else s, ops[1..], initial, grow);
    }
  }

  function Adds(n: nat): (ops: seq<Op>) {
    seq(n, _ => Add(true))
  }

  lemma {:induction false} RunAdds(s: Sizes, n: nat, initial: nat, grow: nat)
    requires grow > 0 && s.count + n <= initial + grow && s.count <= s.size
    requires s.size == if s.count <= initial then initial else initial + grow
    ensures Run(s, Adds(n), initial, grow) ==
            Sizes(if s.count + n <= initial then initial else initial + grow, s.count + n)
    decreases n
  {
    if n > 0 {
      assert Adds(n)[1..] == Adds(n - 1);
      RunAdds(AddSizes(s, grow, true), n - 1, initial, grow);
    }
  }

  // No run of iqueue_add and iqueue_next ever overruns the shrunk queue, exactly when the initial size is
  // a multiple of the step (or the queue does not grow).
  lemma SafeExactlyWhenEven(initial: nat, grow: nat)
    ensures Even(initial, grow) <==>
            forall ops, op :: !Overruns(Run(Sizes(initial, 0), ops, initial, grow), op, initial, grow)
  {
    if Even(initial, grow) {
      forall ops, op ensures !Overruns(Run(Sizes(initial, 0), ops, initial, grow), op, initial, grow) {
        RunKeeps(Sizes(initial, 0), ops, initial, grow);
        var s := Run(Sizes(initial, 0), ops, initial, grow);
        if Enabled(s, op) { StepKeeps(s, op, initial, grow); }
      }
    } else {
      var m := RoundUp(initial, grow);
      RoundUpIsMultiple(initial, grow);
      RunAdds(Sizes(initial, 0), m + 1, initial, grow);
      assert Overruns(Run(Sizes(initial, 0), Adds(m + 1), initial, grow), Next(true), initial, grow);
    }
  }

  // ---- The queue ----

  class Queue {
    const initial: nat
    const grow: nat
    var queue: array<int>
    var start: nat
    var count: nat

    ghost predicate Valid()
      reads this
    {
      && Even(initial, grow) && SizeOk(Sizes(queue.Length, count), initial, grow)
      && (start < queue.Length || (start == 0 && queue.Length == 0))
    }

    // (start + i) % size
    function Slot(i: nat): (k: nat)
      requires start < queue.Length && i <= queue.Length
      reads this
      ensures k == if start + i < queue.Length then start + i else start + i - queue.Length
    {
      OnceAround(start + i, queue.Length);
      (start + i) % queue.Length
    }

    function SizesNow(): Sizes
      reads this
    {
      Sizes(queue.Length, count)
    }

    ghost function Contents(): (s: seq<int>)
      requires Valid()
      reads this, queue
      ensures |s| == count
    {
      seq(count, i requires Valid() && 0 <= i < count reads this, queue => queue[Slot(i)])
    }

    // iqueue_create
    constructor (initial: nat, grow: nat)
      requires Even(initial, grow)
      ensures Valid() && Contents() == [] && this.initial == initial && this.grow == grow && fresh(queue)
      ensures SizesNow() == Sizes(initial, 0)
    {
      this.initial, this.grow := initial, grow;
      queue := new int[initial](_ => 0);
      start, count := 0, 0;
    }

    // The resizing that both operations do.
    method Resize(size: nat)
      requires Valid() && count <= size && (count > 0 ==> queue.Length > 0)
      requires SizeOk(Sizes(size, count), initial, grow)
      modifies this`queue, this`start
      ensures Valid() && fresh(queue) && queue.Length == size && start == 0
      ensures Contents() == old(Contents())
    {
      assert count <= queue.Length && start <= queue.Length;
      hide SizeOk, Slot;
      ghost var contents := Contents();
      var newQueue := new int[size](_ => 0);
      var i := 0;
      while i < count
        modifies newQueue
        invariant 0 <= i <= count
        invariant forall k :: 0 <= k < i ==> newQueue[k] == contents[k]
      {
        newQueue[i] := queue[Slot(i)];
        i := i + 1;
      }
      start := 0;
      queue := newQueue;
      assert forall k :: 0 <= k < count ==> Contents()[k] == contents[k];
    }

    // The last step of iqueue_add.
    method Put(num: int)
      requires Valid() && count < queue.Length
      modifies this`count, queue
      ensures Valid() && Contents() == old(Contents()) + [num]
    {
      hide SizeOk, Slot;
      ghost var contents := Contents();
      MoreFits(Sizes(queue.Length, count), initial, grow);
      queue[Slot(count)] := num;
      count := count + 1;
      assert forall k :: 0 <= k < count - 1 ==> Contents()[k] == contents[k];
    }

    // iqueue_add
    method Add(num: int, noGrow: bool, memory: bool) returns (ok: bool)
      requires Valid()
      modifies this`queue, this`start, this`count, queue
      ensures Valid() && (fresh(queue) || queue == old(queue))
      ensures Contents() == if ok then old(Contents()) + [num] else old(Contents())
      ensures ok <==> old(count) < old(queue.Length) || (grow != 0 && !noGrow && memory)
      ensures SizesNow() == Apply(old(SizesNow()), Op.Add(!noGrow && memory), initial, grow)
    {
      if queue.Length == count {
        if grow == 0 || noGrow || !memory {
          return false;
        }
        StepKeeps(Sizes(queue.Length, count), Op.Add(true), initial, grow);
        Resize(queue.Length + grow);
      }
      Put(num);
      ok := true;
    }

    // iqueue_next
    method Next(noShrink: bool, memory: bool) returns (num: int)
      requires Valid() && count > 0
      modifies this`queue, this`start, this`count
      ensures Valid() && (fresh(queue) || queue == old(queue))
      ensures num == old(Contents())[0] && Contents() == old(Contents())[1..]
      ensures SizesNow() == old(Apply(SizesNow(), Op.Next(!noShrink && memory), initial, grow))
    {
      ghost var contents := Contents();
      ghost var was := Sizes(queue.Length, count);
      num := queue[start];
      StepKeeps(was, Op.Next(false), initial, grow);
      StepKeeps(was, Op.Next(true), initial, grow);
      assert grow > 0 && queue.Length > initial ==> queue.Length >= grow by {
        if grow > 0 && queue.Length > initial { AtLeastOne(queue.Length, grow); }
      }
      hide SizeOk, Slot;
      start := Slot(1);
      count := count - 1;
      assert forall k :: 0 <= k < count ==> Contents()[k] == contents[k + 1];
      if grow != 0 && !noShrink {
        if queue.Length > initial && count % grow == 0 {
          if !memory {
            return;
          }
          Resize(queue.Length - grow);
        }
      }
    }
  }

  lemma OnceAround(x: nat, n: nat)
    requires n > 0 && x < 2 * n
    ensures x % n == if x < n then x else x - n
  {
    if x < n { DivUnique(x, 0, x, n); } else { DivUnique(x, 1, x - n, n); }
  }

  lemma MoreFits(s: Sizes, initial: nat, grow: nat)
    requires SizeOk(s, initial, grow) && s.count < s.size
    ensures SizeOk(s.(count := s.count + 1), initial, grow)
  {
  }
}
