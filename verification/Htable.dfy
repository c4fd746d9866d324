// The open-addressed hash table of kernel/ds/htable.c, which doubles and halves.
module Htable {
  import opened Multiples

  // What a table gets that is asked for without a size.
  const DEFAULT_SIZE: nat := 32

  // The stored pointers; 0 is NULL.
  type Ptr = nat

  ghost function Bag(slots: seq<Ptr>): multiset<Ptr> {
    multiset(slots)[0 := 0]
  }

  function Elements(slots: seq<Ptr>): (s: seq<Ptr>)
    ensures |s| <= |slots|
  {
    if slots == [] then []
    else Elements(slots[..|slots| - 1]) + if slots[|slots| - 1] != 0 then [slots[|slots| - 1]] else []
  }

  // The elements, taken in slot order, are the bag.
  lemma {:induction false} ElementsAreBag(slots: seq<Ptr>)
    ensures multiset(Elements(slots)) == Bag(slots) && |Elements(slots)| == |Bag(slots)|
    ensures 0 !in Elements(slots)
  {
    if slots != [] {
      var n := |slots| - 1;
      ElementsAreBag(slots[..n]);
      BagNext(slots, n);
      assert slots[..n + 1] == slots;
    }
  }

  lemma BagUpdate(slots: seq<Ptr>, i: nat, x: Ptr)
    requires i < |slots|
    ensures slots[i] == 0 && x != 0 ==>
              Bag(slots[i := x]) == Bag(slots) + multiset{x} && |Bag(slots[i := x])| == |Bag(slots)| + 1
    ensures slots[i] != 0 && x == 0 ==>
              Bag(slots[i := x]) == Bag(slots) - multiset{slots[i]} && |Bag(slots[i := x])| == |Bag(slots)| - 1
              && slots[i] in Bag(slots)
  {
    assert multiset(slots[i := x]) == multiset(slots) - multiset{slots[i]} + multiset{x};
    if slots[i] != 0 { assert slots[i] in slots; }
  }

  lemma BagNext(slots: seq<Ptr>, i: nat)
    requires i < |slots|
    ensures Bag(slots[..i + 1]) == if slots[i] == 0 then Bag(slots[..i]) else Bag(slots[..i]) + multiset{slots[i]}
  {
    assert slots[..i + 1] == slots[..i] + [slots[i]];
  }

  lemma NoHole(slots: seq<Ptr>)
    requires 0 !in slots
    ensures |Bag(slots)| == |slots|
  {
    assert multiset(slots)[0 := 0] == multiset(slots);
  }

  lemma HasHole(slots: seq<Ptr>)
    requires |Bag(slots)| < |slots|
    ensures exists p :: 0 <= p < |slots| && slots[p] == 0
  {
    if 0 !in slots {
      NoHole(slots);
    }
  }

  lemma InBag(slots: seq<Ptr>, x: Ptr)
    requires x != 0
    ensures x in Bag(slots) <==> x in slots
  {
  }

  // ---- The probe sequence visits every slot ----

  function Probe(key: nat, i: nat, size: nat): (p: nat)
    requires size > 0
    ensures p < size
  {
    (i + key) % size
  }

  lemma ProbeReaches(key: nat, size: nat, p: nat) returns (i: nat)
    requires p < size
    ensures i < size && Probe(key, i, size) == p
  {
    var k := key % size;
    var q := key / size;
    assert key == q * size + k;
    if k <= p {
      i := p - k;
      DivUnique(i + key, q, p, size);
    } else {
      i := p - k + size;
      assert i + key == (q + 1) * size + p by { assert (q + 1) * size == q * size + size; }
      DivUnique(i + key, q + 1, p, size);
    }
  }

  lemma ProbesAll(key: nat, size: nat, slots: seq<Ptr>, x: Ptr)
    requires size == |slots| > 0 && forall i :: 0 <= i < size ==> slots[Probe(key, i, size)] != x
    ensures x !in slots
  {
    forall p | 0 <= p < size ensures slots[p] != x {
      var i := ProbeReaches(key, size, p);
    }
  }

  // ---- When a rehash neither nests nor drops an element ----

  // Adding to a table of this size would make it grow first.
  predicate Grows(total: nat, size: nat, percent: int)
    requires size > 0
  {
    (total + 1) * 100 / size > percent
  }

  predicate Shrinks(total: nat, size: nat, percent: int)
    requires size > 0 && total > 0
  {
    (total - 1) * 100 / size < percent / 4 && size > 32
  }

  // n elements go into an empty table of this size one after the other, without growing it.
  ghost predicate Fits(n: nat, size: nat, percent: int) {
    size > 0 && n <= size && forall k: nat :: k < n ==> !Grows(k, size, percent)
  }

  // Division by a positive number, as an inequality.
  lemma Quotient(a: int, s: int, p: int)
    requires s > 0
    ensures a / s <= p <==> a < (p + 1) * s
  {
    var q, r := a / s, a % s;
    assert a == q * s + r;
    if q <= p {
      NoMore(q, p, s);
      assert (p + 1) * s == p * s + s;
    } else {
      NoMore(p + 1, q, s);
    }
  }

  lemma FitsWhole(n: nat, size: nat, percent: int)
    requires size > 0 && n <= size && (n == 0 || !Grows(n - 1, size, percent))
    ensures Fits(n, size, percent)
  {
    forall k: nat | k < n ensures !Grows(k, size, percent) {
      Quotient((k + 1) * 100, size, percent);
      Quotient(n * 100, size, percent);
    }
  }

  // Doubling a table that is not full is safe for every size exactly when percent is at least 49.
  lemma GrowFits(total: nat, size: nat, percent: int)
    requires total < size && percent >= 49
    ensures Fits(total, 2 * size, percent)
  {
    if total > 0 {
      Quotient(total * 100, 2 * size, percent);
      assert (percent + 1) * (2 * size) >= 50 * (2 * size);
    }
    FitsWhole(total, 2 * size, percent);
  }

  lemma GrowNests(percent: int)
    requires percent < 49
    ensures !Fits(99, 2 * 100, percent)
  {
    assert Grows(98, 200, percent);
  }

  // Halving is safe for every size exactly when percent is at most 195, given that it is at least 49.
  lemma ShrinkFits(total: nat, size: nat, percent: int)
    requires total > 0 && size > 0 && 49 <= percent <= 195 && Shrinks(total, size, percent)
    ensures Fits(total, size / 2, percent)
  {
    var m, c := size / 2, percent / 4;
    Quotient((total - 1) * 100, size, c - 1);
    HalfEnough(total, m, size, c, percent);
    Quotient(total * 100, m, percent);
    FitsWhole(total, m, percent);
  }

  lemma HalfEnough(total: nat, m: nat, size: nat, c: int, percent: int)
    requires (total - 1) * 100 < c * size && 2 * m <= size <= 2 * m + 1 && m >= 16
    requires 12 <= c <= 48 && 4 * c <= percent
    ensures total <= m && total * 100 < (percent + 1) * m
  {
    assert c * size <= c * (2 * m + 1) by { NoMore(size, 2 * m + 1, c); }
    assert c * (2 * m + 1) == 2 * (c * m) + c;
    assert c * m <= 48 * m by { NoMore(c, 48, m); }
    assert (percent + 1) * m >= (4 * c + 1) * m by { NoMore(4 * c + 1, percent + 1, m); }
    assert (4 * c + 1) * m == 4 * (c * m) + m;
    assert c * m >= 12 * m by { NoMore(12, c, m); }
  }

  lemma ShrinkDrops(percent: int)
    requires percent > 195
    ensures Shrinks(17, 33, percent) && !Fits(17, 33 / 2, percent)
  {
  }

  // ---- Which tables are reached ----

  // The sizes alone. An operation says whether kmalloc has room for another table, and a removal whether
  // the element is there.
  datatype Sizes = Sizes(size: nat, total: nat)

  datatype Op = OpInsert(memory: bool) | OpRemove(found: bool, memory: bool)

  // Whether the operation rehashes, and to what size.
  predicate Rehashes(s: Sizes, op: Op, percent: int)
    requires s.size > 0
  {
    match op
    case OpInsert(memory) => s.total < s.size && Grows(s.total, s.size, percent) && memory
    case OpRemove(_, memory) => s.total > 0 && Shrinks(s.total, s.size, percent) && memory
  }

  function NewSize(s: Sizes, op: Op): nat {
    if op.OpInsert? then 2 * s.size else s.size / 2
  }

  // The rehash nests another one, or does not place every element.
  ghost predicate Fails(s: Sizes, op: Op, percent: int)
    requires s.size > 0
  {
    Rehashes(s, op, percent) && !Fits(s.total, NewSize(s, op), percent)
  }

  function Apply(s: Sizes, op: Op, percent: int): (t: Sizes)
    requires s.size > 0
    ensures t.size > 0
  {
    Sizes(if Rehashes(s, op, percent) then NewSize(s, op) else s.size,
          match op
          case OpInsert(_) => if s.total == s.size then s.total else s.total + 1
          case OpRemove(found, _) => if s.total > 0 && found then s.total - 1 else s.total)
  }

  function Run(s: Sizes, ops: seq<Op>, percent: int): (t: Sizes)
    requires s.size > 0
    ensures t.size > 0
    decreases |ops|
  {
    if ops == [] then s else Run(Apply(s, ops[0], percent), ops[1..], percent)
  }

  // n insertions, for each of which kmalloc would refuse a larger table.
  function Inserts(n: nat): (ops: seq<Op>) {
    seq(n, _ => OpInsert(false))
  }

  lemma {:induction false} RunInserts(s: Sizes, n: nat, percent: int)
    requires s.total + n <= s.size && s.size > 0
    ensures Run(s, Inserts(n), percent) == Sizes(s.size, s.total + n)
    decreases n
  {
    if n > 0 {
      assert Inserts(n)[1..] == Inserts(n - 1);
      RunInserts(Sizes(s.size, s.total + 1), n - 1, percent);
    }
  }

  ghost predicate SafeRuns(percent: int) {
    forall size: nat, ops, op :: size > 0 ==> !Fails(Run(Sizes(size, 0), ops, percent), op, percent)
  }

  lemma FailsAfter(size: nat, n: nat, op: Op, percent: int)
    requires n <= size && size > 0 && Fails(Sizes(size, n), op, percent)
    ensures !SafeRuns(percent)
  {
    RunInserts(Sizes(size, 0), n, percent);
    assert Fails(Run(Sizes(size, 0), Inserts(n), percent), op, percent);
  }

  // Whatever the initial size, no run of insertions and removals, with any refusals of kmalloc, reaches a
  // rehash that nests or drops an element, exactly for these percentages.
  lemma SafeExactly(percent: int)
    ensures SafeRuns(percent) <==> 49 <= percent <= 195
  {
    if percent < 49 {
      GrowNests(percent);
      FailsAfter(100, 99, OpInsert(true), percent);
    } else if percent > 195 {
      ShrinkDrops(percent);
      FailsAfter(33, 17, OpRemove(true, true), percent);
    } else {
      forall size: nat, ops, op | size > 0 ensures !Fails(Run(Sizes(size, 0), ops, percent), op, percent) {
        var s := Run(Sizes(size, 0), ops, percent);
        if Rehashes(s, op, percent) {
          if op.OpInsert? {
            GrowFits(s.total, s.size, percent);
          } else {
            ShrinkFits(s.total, s.size, percent);
          }
        }
      }
    }
  }

  // A table of the default size never becomes smaller.
  lemma {:induction false} NeverBelowDefault(s: Sizes, ops: seq<Op>, percent: int)
    requires exists k: nat :: s.size == DEFAULT_SIZE * Power(k)
    ensures Run(s, ops, percent).size >= DEFAULT_SIZE
    decreases |ops|
  {
    var k: nat :| s.size == DEFAULT_SIZE * Power(k);
    if ops != [] {
      if Rehashes(s, ops[0], percent) {
        var n: nat := if ops[0].OpInsert? then k + 1 else k - 1;
        assert NewSize(s, ops[0]) == DEFAULT_SIZE * Power(n);
      }
      NeverBelowDefault(Apply(s, ops[0], percent), ops[1..], percent);
    }
  }

  function Power(k: nat): (p: nat)
    ensures p > 0
  {
    if k == 0 then 1 else 2 * Power(k - 1)
  }

  predicate Loaded(s: Sizes, percent: int) {
    s.total <= s.size && s.size > 0 && s.total * 100 / s.size <= percent
  }

  lemma FewerLoaded(total: nat, size: nat, less: nat, percent: int)
    requires Loaded(Sizes(size, total), percent) && less <= total
    ensures Loaded(Sizes(size, less), percent)
  {
    Quotient(total * 100, size, percent);
    Quotient(less * 100, size, percent);
  }

  lemma GrownLoaded(total: nat, size: nat, percent: int)
    requires percent >= 50 && total < size
    ensures Loaded(Sizes(2 * size, total + 1), percent)
  {
    Quotient((total + 1) * 100, 2 * size, percent);
    NoMore(51, percent + 1, 2 * size);
  }

  lemma StepLoad(s: Sizes, op: Op, percent: int)
    requires 50 <= percent <= 195 && Loaded(s, percent) && op.memory
    ensures Loaded(Apply(s, op, percent), percent)
  {
    match op
    case OpInsert(_) => if s.total < s.size { GrownLoaded(s.total, s.size, percent); }
    case OpRemove(found, _) =>
      if s.total > 0 {
        var size := if Shrinks(s.total, s.size, percent) then s.size / 2 else s.size;
        if Shrinks(s.total, s.size, percent) {
          ShrinkFits(s.total, s.size, percent);
          assert !Grows(s.total - 1, size, percent);
        }
        FewerLoaded(s.total, size, if found then s.total - 1 else s.total, percent);
      }
  }

  // While kmalloc has room, the load stays at or below the percentage asked for, from 50 to 195.
  lemma {:induction false} LoadStays(s: Sizes, ops: seq<Op>, percent: int)
    requires 50 <= percent <= 195 && Loaded(s, percent) && forall op :: op in ops ==> op.memory
    ensures Loaded(Run(s, ops, percent), percent)
    decreases |ops|
  {
    hide Apply;
    if ops != [] {
      assert ops[0] in ops && forall op :: op in ops[1..] ==> op in ops;
      StepLoad(s, ops[0], percent);
      LoadStays(Apply(s, ops[0], percent), ops[1..], percent);
    }
  }

  // ---- The table ----

  class Table {
    var table: array<Ptr>
    var total: nat
    const percent: int
    const key: Ptr -> int
    const compare: (Ptr, Ptr) -> int

    ghost predicate Valid()
      reads this, table
    {
      table.Length > 0 && total == |Bag(table[..])| && 49 <= percent <= 195
    }

    function SizesNow(): Sizes
      reads this
    {
      Sizes(table.Length, total)
    }

    // init_htable
    constructor (size: int, percent: int, key: Ptr -> int, compare: (Ptr, Ptr) -> int)
      requires 49 <= percent <= 195
      ensures Valid() && Bag(table[..]) == multiset{} && fresh(table)
      ensures this.percent == percent && this.key == key && this.compare == compare
      ensures SizesNow() == Sizes(if size <= 0 then DEFAULT_SIZE else size, 0)
    {
      this.percent, this.key, this.compare := percent, key, compare;
      var n: nat := if size <= 0 then DEFAULT_SIZE else size;
      table := new Ptr[n](_ => 0);
      total := 0;
      new;
      Nothing(table[..]);
    }

    // The absolute value of a key; the key function does not give the least integer.
    function Hash(data: Ptr): (k: nat)
      reads this
    {
      if key(data) < 0 then -key(data) else key(data)
    }

    // The probing loop of htable_insert.
    method Put(data: Ptr)
      requires Valid() && data != 0 && total < table.Length
      modifies this`total, table
      ensures Valid() && Bag(table[..]) == old(Bag(table[..])) + multiset{data} && total == old(total) + 1
    {
      var k := Hash(data);
      ghost var slots := table[..];
      HasHole(slots);
      var i := 0;
      while i < table.Length && table[Probe(k, i, table.Length)] != 0
        invariant 0 <= i <= table.Length && table[..] == slots
        invariant forall j :: 0 <= j < i ==> slots[Probe(k, j, |slots|)] != 0
      {
        i := i + 1;
      }
      if i == table.Length {
        ProbesAll(k, |slots|, slots, 0);
      }
      var p := Probe(k, i, table.Length);
      BagUpdate(slots, p, data);
      table[p] := data;
      assert table[..] == slots[p := data];
      total := total + 1;
    }

    // htable_insert. `memory` says whether kmalloc has room for a larger table.
    method Insert(data: Ptr, memory: bool) returns (ok: bool)
      requires Valid() && data != 0
      modifies this`total, this`table, table
      ensures Valid() && ok == (old(total) < old(table.Length))
      ensures Bag(table[..]) == if ok then old(Bag(table[..])) + multiset{data} else old(Bag(table[..]))
      ensures SizesNow() == Apply(old(SizesNow()), OpInsert(memory), percent)
      ensures table == old(table) || fresh(table)
      ensures !Grows(old(total), old(table.Length), percent) ==> table == old(table)
      decreases if Grows(total, table.Length, percent) then 2 else 0
    {
      if total == table.Length {
        return false;
      }
      if Grows(total, table.Length, percent) {
        GrowFits(total, table.Length, percent);
        var grown := Rehash(table.Length * 2, memory);
      }
      Put(data);
      ok := true;
    }

    // htable_rehash: every element finds its place, without another rehash.
    method Rehash(newSize: nat, memory: bool) returns (ok: bool)
      requires Valid() && Fits(total, newSize, percent)
      modifies this`total, this`table
      ensures Valid() && ok == memory
      ensures Bag(table[..]) == old(Bag(table[..])) && total == old(total)
      ensures if ok then fresh(table) && table.Length == newSize else table == old(table)
      decreases 1
    {
      if !memory {
        return false;
      }
      var oldTable := table;
      ghost var slots := oldTable[..];
      var newTable := new Ptr[newSize](_ => 0);
      table := newTable;
      total := 0;
      Nothing(table[..]);
      NothingYet(slots);
      var i := 0;
      while i < oldTable.Length
        invariant 0 <= i <= |slots| == oldTable.Length && oldTable[..] == slots
        invariant Valid() && fresh(table) && table.Length == newSize && table != oldTable
        invariant Bag(table[..]) == Bag(slots[..i])
      {
        BagNext(slots, i);
        if oldTable[i] != 0 {
          MoreToCome(slots, i);
          var placed := Insert(oldTable[i], memory);
        }
        i := i + 1;
      }
      assert slots[..i] == slots;
      ok := true;
    }

    // The probing loop of htable_remove.
    method Take(data: Ptr)
      requires Valid() && data != 0
      modifies this`total, table
      ensures Valid() && Bag(table[..]) == old(Bag(table[..])) - multiset{data}
      ensures total == old(total) - if data in old(Bag(table[..])) then 1 else 0
    {
      var k := Hash(data);
      ghost var slots := table[..];
      InBag(slots, data);
      hide Bag, Probe;
      var i := 0;
      while i < table.Length && table[Probe(k, i, table.Length)] != data
        invariant 0 <= i <= table.Length && table[..] == slots
        invariant forall j :: 0 <= j < i ==> slots[Probe(k, j, |slots|)] != data
      {
        i := i + 1;
      }
      if i == table.Length {
        ProbesAll(k, |slots|, slots, data);
        return;
      }
      var p := Probe(k, i, table.Length);
      BagUpdate(slots, p, 0);
      table[p] := 0;
      assert table[..] == slots[p := 0];
      total := total - 1;
    }

    // htable_remove: one occurrence goes, if there is one.
    method Remove(data: Ptr, memory: bool) returns (ok: bool)
      requires Valid() && data != 0
      modifies this`total, this`table, table
      ensures Valid() && ok == (old(total) > 0)
      ensures Bag(table[..]) == old(Bag(table[..])) - multiset{data}
      ensures SizesNow() == Apply(old(SizesNow()), OpRemove(data in old(Bag(table[..])), memory), percent)
      ensures table == old(table) || fresh(table)
    {
      if total == 0 {
        return false;
      }
      if Shrinks(total, table.Length, percent) {
        ShrinkFits(total, table.Length, percent);
        var shrunk := Rehash(table.Length / 2, memory);
      }
      Take(data);
      ok := true;
    }

    // htable_retrieve: an element that matches the sample, or NULL (0) exactly when none does, wherever
    // removals have left holes.
    method Retrieve(sample: Ptr) returns (found: Ptr)
      requires Valid()
      ensures found != 0 ==> found in Bag(table[..]) && compare(found, sample) == 0
      ensures found == 0 <==> forall x :: x in Bag(table[..]) ==> compare(x, sample) != 0
    {
      ghost var slots := table[..];
      if total == 0 {
        return 0;
      }
      var k := Hash(sample);
      for i := 0 to table.Length
        invariant forall j :: 0 <= j < i ==> var x := slots[Probe(k, j, |slots|)]; x == 0 || compare(x, sample) != 0
      {
        found := table[Probe(k, i, table.Length)];
        if found != 0 && compare(found, sample) == 0 {
          InBag(slots, found);
          return;
        }
      }
      found := 0;
      forall x | x in Bag(slots) ensures compare(x, sample) != 0 {
        var p :| 0 <= p < |slots| && slots[p] == x;
        var i := ProbeReaches(k, |slots|, p);
        assert slots[Probe(k, i, |slots|)] == x;
      }
    }

    // htable_get: the numbers below total enumerate the elements in slot order, each once.
    method Get(num: int) returns (element: Ptr)
      requires Valid()
      ensures |Elements(table[..])| == total && multiset(Elements(table[..])) == Bag(table[..])
      ensures element == if 0 <= num < total then Elements(table[..])[num] else 0
    {
      ghost var slots := table[..];
      ElementsAreBag(slots);
      if total == 0 || num >= total {
        return 0;
      }
      var count := 0;
      for i := 0 to table.Length
        invariant count == |Elements(slots[..i])| && (0 <= num ==> count <= num)
      {
        ElementsPrefix(slots, i);
        if table[i] != 0 {
          if count == num {
            ElementsExtend(slots, i + 1);
            return table[i];
          }
          count := count + 1;
        }
      }
      assert slots[..|slots|] == slots;
      element := 0;
    }
  }

  lemma Nothing(slots: seq<Ptr>)
    requires forall i :: 0 <= i < |slots| ==> slots[i] == 0
    ensures Bag(slots) == multiset{}
  {
    assert forall x :: x in multiset(slots) ==> x == 0;
  }

  lemma NothingYet(slots: seq<Ptr>)
    ensures Bag(slots[..0]) == multiset{}
  {
  }

  // What has been moved and the next element are part of the whole.
  lemma {:induction false} MoreToCome(slots: seq<Ptr>, i: nat)
    requires i < |slots| && slots[i] != 0
    ensures |Bag(slots[..i])| < |Bag(slots)|
    decreases |slots|
  {
    var n := |slots| - 1;
    BagNext(slots, n);
    assert slots[..n + 1] == slots;
    if i < n {
      MoreToCome(slots[..n], i);
      assert slots[..n][..i] == slots[..i];
    }
  }

  lemma ElementsPrefix(slots: seq<Ptr>, i: nat)
    requires i < |slots|
    ensures Elements(slots[..i + 1]) == Elements(slots[..i]) + if slots[i] != 0 then [slots[i]] else []
  {
    assert slots[..i + 1][..i] == slots[..i];
  }

  lemma {:induction false} ElementsExtend(slots: seq<Ptr>, i: nat)
    requires i <= |slots|
    ensures Elements(slots[..i]) <= Elements(slots)
    decreases |slots|
  {
    if i == |slots| {
      assert slots[..i] == slots;
    } else {
      ElementsExtend(slots[..|slots| - 1], i);
      assert slots[..|slots| - 1][..i] == slots[..i];
    }
  }
}
