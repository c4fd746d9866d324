// Properties of whole runs of vmem_add, vmem_alloc and vmem_free over the extents of an arena.
module ExtentRuns {
  import opened Extents
  import Multiples

  // ---- quanta ----

  // The hash slot of an address inside a span.
  function Slot(r: Range, addr: nat, q: nat): nat
    requires q > 0 && r.addr <= addr
  {
    (addr - r.addr) / q
  }

  // What stands at place k after a splice.
  function Spliced(ts: seq<Extent>, i: nat, j: nat, mid: seq<Extent>, k: nat): Extent
    requires i <= j <= |ts| && k < i + |mid| + |ts| - j
  {
    if k < i then ts[k] else if k < i + |mid| then mid[k - i] else ts[k - i - |mid| + j]
  }

  lemma SpliceAt(ts: seq<Extent>, i: nat, j: nat, mid: seq<Extent>, k: nat)
    requires i <= j <= |ts| && k < |Splice(ts, i, j, mid)|
    ensures Splice(ts, i, j, mid)[k] == Spliced(ts, i, j, mid, k)
  {
  }

  lemma SplicedAll(ts: seq<Extent>, i: nat, j: nat, mid: seq<Extent>, us: seq<Extent>)
    requires i <= j <= |ts| && |us| == i + |mid| + |ts| - j
    requires forall k :: 0 <= k < |us| ==> us[k] == Spliced(ts, i, j, mid, k)
    ensures us == Splice(ts, i, j, mid)
  {
  }

  lemma SpliceQuantized(ts: seq<Extent>, i: nat, j: nat, mid: seq<Extent>, q: nat)
    requires q > 0 && i <= j <= |ts| && Chain(ts) && Quantized(ts, q) && Chain(Splice(ts, i, j, mid))
    requires forall k :: 0 <= k < |mid| ==> Inside(mid[k]) && OnQuantum(mid[k], q)
    ensures Quantized(Splice(ts, i, j, mid), q)
  {
    hide OnQuantum;
    var us := Splice(ts, i, j, mid);
    forall k | 0 <= k < |us| ensures OnQuantum(us[k], q) {
      SpliceAt(ts, i, j, mid, k);
      if k < i {
        assert OnQuantum(ts[k], q);
      } else if k < i + |mid| {
        assert OnQuantum(mid[k - i], q);
      } else {
        assert OnQuantum(ts[k - i - |mid| + j], q);
      }
    }
  }

  lemma AllocQuantized(ts: seq<Extent>, i: nat, n: nat, q: nat)
    requires q > 0 && Tiled(ts) && Quantized(ts, q) && i < |ts| && n > 0 && Fit(ts[i], n) && n % q == 0
    requires Tiled(AllocAt(ts, i, n))
    ensures Quantized(AllocAt(ts, i, n), q)
  {
    var e := ts[i];
    assert Inside(e) && OnQuantum(e, q);
    Multiples.SumOfMultiples(e.size, n, q);
    Multiples.SumOfMultiples(e.addr - e.span.addr, e.size - n, q);
    SpliceQuantized(ts, i, i + 1, Cut(e, n), q);
  }

  lemma MergedOnQuantum(ts: seq<Extent>, i: nat, q: nat)
    requires q > 0 && Tiled(ts) && Quantized(ts, q) && i < |ts| && ts[i].used
    ensures OnQuantum(Merged(ts, i), q)
  {
    MergedShape(ts, i);
    MergeTests(ts, i);
    var a, e, b := ts[FreeLow(ts, i)], ts[i], ts[FreeHigh(ts, i) - 1];
    assert OnQuantum(a, q) && OnQuantum(e, q) && OnQuantum(b, q);
    Multiples.SumOfMultiples(a.size, e.size, q);
    Multiples.SumOfMultiples(a.size + e.size, b.size, q);
    Multiples.SumOfMultiples(e.size, b.size, q);
  }

  lemma FreeQuantized(ts: seq<Extent>, i: nat, q: nat)
    requires q > 0 && Tiled(ts) && Quantized(ts, q) && i < |ts| && ts[i].used
    requires Tiled(FreeAt(ts, i))
    ensures Quantized(FreeAt(ts, i), q)
  {
    MergedOnQuantum(ts, i, q);
    SpliceQuantized(ts, FreeLow(ts, i), FreeHigh(ts, i), [Merged(ts, i)], q);
  }

  lemma AddQuantized(ts: seq<Extent>, r: Range, q: nat)
    requires q > 0 && Tiled(ts) && Quantized(ts, q) && r.size > 0 && r.size % q == 0
    requires Tiled(AddAt(ts, r))
    ensures Quantized(AddAt(ts, r), q)
  {
    var p := Place(ts, r.addr);
    SpliceQuantized(ts, p, p, [Whole(r)], q);
  }

  // Extents of one span have different hash slots; and an address has the slot of an extent
  // exactly when it lies in the first quantum of it.
  lemma SlotOfAddress(e: Extent, x: nat, q: nat)
    requires q > 0 && Inside(e) && OnQuantum(e, q) && e.span.addr <= x
    ensures Slot(e.span, x, q) == Slot(e.span, e.addr, q) <==> e.addr <= x < e.addr + q
    ensures q <= e.size && Slot(e.span, e.addr, q) < e.span.size / q
  {
    Multiples.SumOfMultiples(x - e.addr, e.addr - e.span.addr, q);
    QuotientZero(x - e.addr, q);
    QuotientGrows(e.addr - e.span.addr, e.span.size, e.size, q);
  }

  lemma QuotientZero(d: int, q: nat)
    requires q > 0
    ensures d / q == 0 <==> 0 <= d < q
  {
    if 0 <= d < q { Multiples.DivUnique(d, 0, d, q); }
  }

  lemma QuotientGrows(a: nat, b: nat, s: nat, q: nat)
    requires q > 0 && s > 0 && s % q == 0 && a + s <= b
    ensures q <= s && a / q < b / q
  {
    Multiples.SumOfMultiples(a, s, q);
    if s < q { Multiples.DivUnique(s, 0, s, q); }
    Multiples.DivMonotone(a + s, b, q);
    Multiples.DivMonotone(q, s, q);
  }

  // ---- the tag list is determined by what is in use ----

  // Suffixes that start at the same place, with the same spans and the same extents in use.
  ghost predicate Alike(ts: seq<Extent>, us: seq<Extent>) {
    && Chain(ts) && Chain(us) && ts != [] && us != []
    && Closes(ts[|ts| - 1]) && Closes(us[|us| - 1])
    && ts[0].addr == us[0].addr && ts[0].span == us[0].span
    && Spans(ts) == Spans(us) && UsedSet(ts) == UsedSet(us)
  }

  lemma HeadInUse(ts: seq<Extent>, us: seq<Extent>)
    requires Alike(ts, us) && ts[0].used
    ensures us[0] == ts[0]
  {
    assert ts[0] in UsedSet(us);
    var k :| 0 <= k < |us| && us[k] == ts[0];
    assert Inside(us[k]) && Inside(us[0]);
    Same(us, 0, k, us[0].addr);
  }

  lemma HeadNotLonger(ts: seq<Extent>, us: seq<Extent>)
    requires Alike(ts, us) && !ts[0].used && !us[0].used
    ensures us[0].size <= ts[0].size
  {
    assert Inside(us[0]) && Inside(ts[0]);
    if ts[0].size < us[0].size {
      assert Meets(ts[0], ts[1]) && Inside(ts[1]);
      assert ts[1] in UsedSet(us);
      var k :| 0 <= k < |us| && us[k] == ts[1];
      Same(us, 0, k, ts[1].addr);
    }
  }

  lemma TailSpans(ts: seq<Extent>)
    requires Chain(ts) && |ts| > 1
    ensures Chain(ts[1..])
    ensures Spans(ts[1..]) == if Closes(ts[0]) then Spans(ts) - {ts[0].span} else Spans(ts)
    ensures UsedSet(ts[1..]) == UsedSet(ts) - {ts[0]}
  {
    var us := ts[1..];
    forall i | 0 <= i < |us| - 1 ensures Meets(us[i], us[i + 1]) { assert Meets(ts[i + 1], ts[i + 2]); }
    HeadApart(ts);
    hide Chain;
    assert ts == [ts[0]] + us && us[0] == ts[1];
    forall r ensures r in Spans(us) <==> r in Spans(ts) && (r != ts[0].span || !Closes(ts[0])) {
      if r in Spans(us) { var e :| e in us && e.span == r; assert e in ts; }
      if r in Spans(ts) { var e :| e in ts && e.span == r; assert e == ts[0] || e in us; assert us[0] in us; }
    }
  }

  lemma HeadApart(ts: seq<Extent>)
    requires Chain(ts) && |ts| > 1
    ensures forall e :: e in ts[1..] ==> e != ts[0] && (Closes(ts[0]) ==> e.span != ts[0].span)
    ensures !Closes(ts[0]) ==> ts[1].span == ts[0].span
  {
    assert Meets(ts[0], ts[1]) && Inside(ts[0]);
    forall e | e in ts[1..] ensures e != ts[0] && (Closes(ts[0]) ==> e.span != ts[0].span) {
      var i :| 0 < i < |ts| && ts[i] == e;
      assert Inside(ts[i]);
      Ordered(ts, 0, i);
    }
  }

  // The span that a suffix starts in is the lowest of its spans.
  lemma LowestSpan(ts: seq<Extent>, r: Range)
    requires Chain(ts) && r in Spans(ts)
    ensures r == ts[0].span || Limit(ts[0].span) <= r.addr
  {
    var i :| 0 <= i < |ts| && ts[i].span == r;
    if i > 0 { Ordered(ts, 0, i); }
  }

  lemma SameStart(ts: seq<Extent>, us: seq<Extent>)
    requires Chain(ts) && Chain(us) && ts != [] && us != [] && Spans(ts) == Spans(us)
    ensures ts[0].span == us[0].span
  {
    assert ts[0] in ts && us[0] in us && Inside(ts[0]) && Inside(us[0]);
    LowestSpan(ts, us[0].span);
    LowestSpan(us, ts[0].span);
  }

  lemma AlikeTails(ts: seq<Extent>, us: seq<Extent>)
    requires Alike(ts, us) && ts[0] == us[0] && |ts| > 1 && |us| > 1
    ensures Alike(ts[1..], us[1..])
  {
    TailSpans(ts);
    TailSpans(us);
    SameStart(ts[1..], us[1..]);
    assert Meets(ts[0], ts[1]) && Meets(us[0], us[1]);
  }

  lemma SpanOfFirst(ts: seq<Extent>)
    requires ts != []
    ensures ts[0].span in Spans(ts)
  {
    assert ts[0] in ts;
  }

  lemma BothEnd(ts: seq<Extent>, us: seq<Extent>)
    requires Alike(ts, us) && ts[0] == us[0]
    ensures |us| == 1 ==> |ts| == 1
  {
    if |ts| > 1 && Closes(ts[0]) { TailSpans(ts); SpanOfFirst(ts[1..]); }
    if |us| == 1 {
      assert us == [us[0]];
      assert Spans(us) == {us[0].span};
    }
  }

  lemma {:induction false} AlikeEqual(ts: seq<Extent>, us: seq<Extent>)
    requires Alike(ts, us)
    ensures ts == us
    decreases |ts|
  {
    if ts[0].used { HeadInUse(ts, us); } else if us[0].used { HeadInUse(us, ts); }
    else { HeadNotLonger(ts, us); HeadNotLonger(us, ts); }
    assert ts[0] == us[0];
    BothEnd(ts, us);
    BothEnd(us, ts);
    if |ts| > 1 {
      AlikeTails(ts, us);
      AlikeEqual(ts[1..], us[1..]);
    }
    assert ts == [ts[0]] + ts[1..] && us == [us[0]] + us[1..];
  }

  // Tags are a canonical form: the spans and the extents in use determine the free ones.
  lemma Canonical(ts: seq<Extent>, us: seq<Extent>)
    requires Tiled(ts) && Tiled(us) && Spans(ts) == Spans(us) && UsedSet(ts) == UsedSet(us)
    ensures ts == us
  {
    if ts == [] {
      if us != [] { SpanOfFirst(us); }
    } else {
      assert ts[0] in ts && ts[0].span in Spans(us);
      assert us != [];
      SameStart(ts, us);
      AlikeEqual(ts, us);
    }
  }

  // Freeing what was just allocated gives back the very same extents.
  lemma AllocFree(ts: seq<Extent>, i: nat, n: nat, j: nat)
    requires Tiled(ts) && i < |ts| && 0 < n && Fit(ts[i], n)
    requires j < |AllocAt(ts, i, n)| && AllocAt(ts, i, n)[j] == Taken(ts[i], n)
    ensures FreeAt(AllocAt(ts, i, n), j) == ts
  {
    AllocKeeps(ts, i, n);
    FreeKeeps(AllocAt(ts, i, n), j);
    assert UsedSet(ts) + {Taken(ts[i], n)} - {Taken(ts[i], n)} == UsedSet(ts);
    Canonical(FreeAt(AllocAt(ts, i, n), j), ts);
  }

  // ... and so does freeing by the address that the allocation returned.
  lemma UndoAlloc(ts: seq<Extent>, i: nat, n: nat, q: nat, j: nat)
    requires q > 0 && Tiled(ts) && Quantized(ts, q) && i < |ts| && 0 < n && n % q == 0 && Fit(ts[i], n)
    requires j < |AllocAt(ts, i, n)| && AllocAt(ts, i, n)[j].used
    requires AllocAt(ts, i, n)[j].addr <= Taken(ts[i], n).addr < AllocAt(ts, i, n)[j].addr + q
    ensures FreeAt(AllocAt(ts, i, n), j) == ts
  {
    var us, a := AllocAt(ts, i, n), Taken(ts[i], n).addr;
    AllocKeeps(ts, i, n);
    AllocQuantized(ts, i, n, q);
    var k := TakenIn(ts, i, n);
    assert Inside(us[k]) && Inside(us[j]) && OnQuantum(us[j], q);
    SlotOfAddress(us[j], us[j].addr, q);
    Same(us, j, k, a);
    AllocFree(ts, i, n, j);
  }

  lemma TakenIn(ts: seq<Extent>, i: nat, n: nat) returns (k: nat)
    requires i < |ts| && 0 < n <= ts[i].size
    ensures k < |AllocAt(ts, i, n)| && AllocAt(ts, i, n)[k] == Taken(ts[i], n)
  {
    k := i + |Cut(ts[i], n)| - 1;
  }

  // ---- runs ----

  datatype Op = Add(r: Range) | Alloc(i: nat, n: nat) | Free(i: nat)

  // The operation is one the arena can carry out in this state.
  predicate Enabled(ts: seq<Extent>, op: Op, q: nat)
    requires q > 0
  {
    match op
    case Add(r) => r.size > 0 && r.size % q == 0 && forall s :: s in Spans(ts) ==> Apart(s, r)
    case Alloc(i, n) => i < |ts| && n > 0 && n % q == 0 && Fit(ts[i], n)
    case Free(i) => i < |ts| && ts[i].used
  }

  function Apply(ts: seq<Extent>, op: Op, q: nat): seq<Extent>
    requires q > 0 && Enabled(ts, op, q)
  {
    match op
    case Add(r) => AddAt(ts, r)
    case Alloc(i, n) => AllocAt(ts, i, n)
    case Free(i) => FreeAt(ts, i)
  }

  predicate CanRun(ts: seq<Extent>, ops: seq<Op>, q: nat)
    requires q > 0
    decreases |ops|
  {
    ops == [] || (Enabled(ts, ops[0], q) && CanRun(Apply(ts, ops[0], q), ops[1..], q))
  }

  function Run(ts: seq<Extent>, ops: seq<Op>, q: nat): seq<Extent>
    requires q > 0 && CanRun(ts, ops, q)
    decreases |ops|
  {
    if ops == [] then ts else Run(Apply(ts, ops[0], q), ops[1..], q)
  }

  // A longer run goes on where the shorter one ends.
  lemma {:induction false} RunGoesOn(ts: seq<Extent>, ops: seq<Op>, op: Op, q: nat)
    requires q > 0 && CanRun(ts, ops, q)
    ensures CanRun(ts, ops + [op], q) <==> Enabled(Run(ts, ops, q), op, q)
    ensures CanRun(ts, ops + [op], q) ==> Run(ts, ops + [op], q) == Apply(Run(ts, ops, q), op, q)
    decreases |ops|
  {
    hide Enabled, Apply;
    if ops == [] {
      assert (ops + [op])[1..] == [];
    } else {
      assert (ops + [op])[1..] == ops[1..] + [op];
      RunGoesOn(Apply(ts, ops[0], q), ops[1..], op, q);
    }
  }

  lemma {:induction false} RunsKeepTiling(ts: seq<Extent>, ops: seq<Op>, q: nat)
    requires q > 0 && Tiled(ts) && Quantized(ts, q) && CanRun(ts, ops, q)
    ensures Tiled(Run(ts, ops, q)) && Quantized(Run(ts, ops, q), q)
    decreases |ops|
  {
    if ops != [] {
      match ops[0] {
        case Add(r) => AddKeeps(ts, r); AddQuantized(ts, r, q);
        case Alloc(i, n) => AllocKeeps(ts, i, n); AllocQuantized(ts, i, n, q);
        case Free(i) => FreeKeeps(ts, i); FreeQuantized(ts, i, q);
      }
      RunsKeepTiling(Apply(ts, ops[0], q), ops[1..], q);
    }
  }

  // Whatever the order of operations, arenas with the same spans and allocations are identical.
  lemma HistoryIndependent(ops: seq<Op>, ops': seq<Op>, q: nat)
    requires q > 0 && CanRun([], ops, q) && CanRun([], ops', q)
    requires Spans(Run([], ops, q)) == Spans(Run([], ops', q))
    requires UsedSet(Run([], ops, q)) == UsedSet(Run([], ops', q))
    ensures Run([], ops, q) == Run([], ops', q)
  {
    RunsKeepTiling([], ops, q);
    RunsKeepTiling([], ops', q);
    Canonical(Run([], ops, q), Run([], ops', q));
  }
}
