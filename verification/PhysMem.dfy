// kernel/mm/physmem.c: the bitmap of physical pages. One bool per page stands for one bit.
module PhysMem {
  import opened Options
  import opened PageSize
  import Multiples

  // ---- counting free pages ----

  function Clear(s: seq<bool>): (n: nat)
    ensures n <= |s|
  {
    if s == [] then 0 else (if s[0] then 0 else 1) + Clear(s[1..])
  }

  lemma {:induction false} ClearAppend(s: seq<bool>, t: seq<bool>)
    ensures Clear(s + t) == Clear(s) + Clear(t)
  {
    if s == [] { assert s + t == t; } else {
      assert (s + t)[1..] == s[1..] + t;
      ClearAppend(s[1..], t);
    }
  }

  lemma ClearUpdate(s: seq<bool>, i: nat, used: bool)
    requires i < |s|
    ensures Clear(s[i := used]) == Clear(s) + (if s[i] then 1 else 0) - (if used then 1 else 0)
  {
    assert s == s[..i] + [s[i]] + s[i + 1..];
    assert s[i := used] == s[..i] + [used] + s[i + 1..];
    ClearAppend(s[..i] + [s[i]], s[i + 1..]);
    ClearAppend(s[..i], [s[i]]);
    ClearAppend(s[..i] + [used], s[i + 1..]);
    ClearAppend(s[..i], [used]);
  }

  lemma {:induction false} SomeClear(s: seq<bool>) returns (i: nat)
    requires Clear(s) > 0
    ensures i < |s| && !s[i]
  {
    if !s[0] { i := 0; } else { i := SomeClear(s[1..]); i := i + 1; }
  }

  // ---- marking a run of pages ----

  // The bitmap with the pages [a, a + n) marked.
  function Marked(s: seq<bool>, a: nat, n: nat, used: bool): (t: seq<bool>)
    requires a + n <= |s|
    ensures |t| == |s|
    ensures forall i :: 0 <= i < |s| ==> t[i] == if a <= i < a + n then used else s[i]
  {
    if n == 0 then s else Marked(s, a, n - 1, used)[a + n - 1 := used]
  }

  predicate All(s: seq<bool>, a: nat, n: nat, used: bool) {
    a + n <= |s| && forall i :: a <= i < a + n ==> s[i] == used
  }

  // Allocating a clear run and freeing it again gives the same bitmap.
  lemma MarkUnmark(s: seq<bool>, a: nat, n: nat)
    requires All(s, a, n, false)
    ensures Marked(Marked(s, a, n, true), a, n, false) == s
    ensures Clear(Marked(s, a, n, true)) + n == Clear(s)
  {
    MarkedClear(s, a, n, true);
  }

  // Marking a run of pages that are all in the other state changes the count by its length.
  lemma {:induction false} MarkedClear(s: seq<bool>, a: nat, n: nat, used: bool)
    requires All(s, a, n, !used)
    ensures Clear(Marked(s, a, n, used)) + (if used then n else 0) == Clear(s) + (if used then 0 else n)
  {
    if n > 0 {
      MarkedClear(s, a, n - 1, used);
      ClearUpdate(Marked(s, a, n - 1, used), a + n - 1, used);
    }
  }

  // Runs of pages handed out and not yet given back.
  datatype Run = Run(page: nat, count: nat)

  ghost predicate Outstanding(s: seq<bool>, live: set<Run>) {
    && (forall r :: r in live ==> r.count > 0 && All(s, r.page, r.count, true))
    && (forall r, q :: r in live && q in live && r != q ==> r.page + r.count <= q.page || q.page + q.count <= r.page)
  }

  // A clear run and a marked one never meet.
  lemma RunsApart(s: seq<bool>, a: nat, n: nat, b: nat, m: nat)
    requires All(s, a, n, true) && All(s, b, m, false) && n > 0 && m > 0
    ensures a + n <= b || b + m <= a
  {
    var x := if a <= b then b else a;
    assert a <= x < a + n ==> s[x];
    assert b <= x < b + m ==> !s[x];
  }

  // A newly allocated run meets none of the outstanding ones ...
  lemma AllocOutstanding(s: seq<bool>, live: set<Run>, a: nat, n: nat)
    requires Outstanding(s, live) && n > 0 && All(s, a, n, false)
    ensures Outstanding(Marked(s, a, n, true), live + {Run(a, n)}) && Run(a, n) !in live
  {
    forall r | r in live ensures r.page + r.count <= a || a + n <= r.page {
      RunsApart(s, r.page, r.count, a, n);
    }
  }

  // ... and giving one back leaves the others marked.
  lemma FreeOutstanding(s: seq<bool>, live: set<Run>, r: Run)
    requires Outstanding(s, live) && r in live
    ensures Outstanding(Marked(s, r.page, r.count, false), live - {r})
  {
    forall q | q in live - {r} ensures All(Marked(s, r.page, r.count, false), q.page, q.count, true) {
      assert q.page + q.count <= r.page || r.page + r.count <= q.page;
    }
  }

  // ---- the search ----

  // How many of the pages from `block` on are clear, up to the number wanted.
  function ClearFrom(s: seq<bool>, block: nat, pages: nat): (j: nat)
    requires block + pages <= |s|
    ensures j <= pages && All(s, block, j, false) && (j < pages ==> s[block + j])
    decreases pages
  {
    if pages == 0 || s[block] then 0 else 1 + ClearFrom(s, block + 1, pages - 1)
  }

  // The scan of memory_multiple_alloc at offset i from the last page. Where a run would cross the end of
  // the bitmap it goes on pages - 1 further.
  function Search(s: seq<bool>, last: nat, pages: nat, i: nat): (r: Option<nat>)
    requires |s| > 0 && pages > 0
    ensures r != None ==> All(s, r.value, pages, false)
    decreases |s| - i
  {
    if i >= |s| then None
    else
      var block := (i + last) % |s|;
      if block + pages > |s| then Search(s, last, pages, i + (pages - 2) + 1)
      else
        var j := ClearFrom(s, block, pages);
        if j == pages then Some(block) else Search(s, last, pages, i + j + 1)
  }

  // Which block an offset is.
  lemma BlockAt(i: nat, last: nat, n: nat)
    requires i < n
    ensures (i + last) % n == if i + last % n < n then i + last % n else i + last % n - n
  {
    var d, f := last / n, last % n;
    assert last == d * n + f;
    if i + f < n {
      Multiples.DivUnique(i + last, d, i + f, n);
    } else {
      assert i + last == (d + 1) * n + (i + f - n) by { assert (d + 1) * n == d * n + n; }
      Multiples.DivUnique(i + last, d + 1, i + f - n, n);
    }
  }

  // The offset at which the scan would come to a block.
  function OffsetOf(b: nat, last: nat, n: nat): int
    requires n > 0
  {
    var f := last % n; if b >= f then b - f else b - f + n
  }

  // A clear run at b is not passed over, if b is not before the last page or not among the first blocks.
  lemma {:induction false} NotPassed(s: seq<bool>, last: nat, pages: nat, i: nat, b: nat)
    requires |s| > 0 && pages > 0 && All(s, b, pages, false)
    requires i <= OffsetOf(b, last, |s|) && (b >= last % |s| || b + 2 >= pages)
    ensures Search(s, last, pages, i) != None
    decreases |s| - i
  {
    var n, f := |s|, last % |s|;
    BlockAt(i, last, n);
    var block := (i + last) % n;
    if i < OffsetOf(b, last, n) {
      if block + pages > n {
        NotPassed(s, last, pages, i + (pages - 2) + 1, b);
      } else if ClearFrom(s, block, pages) < pages {
        var j := ClearFrom(s, block, pages);
        assert !(b <= block + j < b + pages);
        NotPassed(s, last, pages, i + j + 1, b);
      }
    } else {
      assert block == b && ClearFrom(s, b, pages) == pages;
    }
  }

  ghost predicate HasRun(s: seq<bool>, pages: nat) {
    exists b :: 0 <= b && All(s, b, pages, false)
  }

  // A search that fails has passed over no run, but for one that starts before the last page and among
  // the first pages - 2 blocks.
  lemma SearchMisses(s: seq<bool>, last: nat, pages: nat, b: nat)
    requires |s| > 0 && pages > 0 && Search(s, last, pages, 0) == None && All(s, b, pages, false)
    ensures b < last % |s| && b + 2 < pages
  {
    if b >= last % |s| || b + 2 >= pages {
      NotPassed(s, last, pages, 0, b);
    }
  }

  // ---- every run of memory_set, memory_alloc and memory_free ----

  datatype Mem = Mem(bitmap: seq<bool>, last: nat)

  datatype Op = OpSet(page: nat, pages: nat, used: bool) | OpAlloc(pages: nat) | OpFree(page: nat, pages: nat)

  // The block that memory_alloc grants: it does not search unless more pages are free than it needs.
  function Grant(m: Mem, pages: nat): (r: Option<nat>)
    requires pages > 0
    ensures r != None ==> All(m.bitmap, r.value, pages, false)
  {
    if Clear(m.bitmap) > pages then Search(m.bitmap, m.last, pages, 0) else None
  }

  predicate Enabled(m: Mem, op: Op) {
    match op
    case OpSet(page, pages, _) => page + pages <= |m.bitmap|
    case OpAlloc(pages) => pages > 0
    case OpFree(page, pages) => All(m.bitmap, page, pages, true)
  }

  function Apply(m: Mem, op: Op): (t: Mem)
    requires Enabled(m, op)
    ensures |t.bitmap| == |m.bitmap|
  {
    match op
    case OpSet(page, pages, used) => m.(bitmap := Marked(m.bitmap, page, pages, used))
    case OpAlloc(pages) =>
      var block := Grant(m, pages);
      if block == None then m else Mem(Marked(m.bitmap, block.value, pages, true), block.value + pages)
    case OpFree(page, pages) => m.(bitmap := Marked(m.bitmap, page, pages, false))
  }

  function After(m: Mem, ops: seq<Op>): Mem
    decreases |ops|
  {
    if ops == [] then m else After(if Enabled(m, ops[0]) then Apply(m, ops[0]) else m, ops[1..])
  }

  // init_physmem
  function Start(total: nat): Mem { Mem(seq(total, _ => true), 0) }

  // Enough pages are free, some of them in a row, and memory_alloc refuses all the same.
  ghost predicate Refuses(m: Mem, pages: nat)
    requires pages > 0
  {
    Clear(m.bitmap) > pages && HasRun(m.bitmap, pages) && Grant(m, pages) == None
  }

  // Two runs of clear pages: one of the length wanted, and one more page near the end.
  ghost predicate Gapped(s: seq<bool>, pages: nat) {
    |s| == pages + 3 && forall i :: 0 <= i < |s| ==> s[i] == (i == pages || i == pages + 2)
  }

  // With the last page as its start, the search passes over the run.
  lemma SearchFailsOn(s: seq<bool>, pages: nat)
    requires pages > 2 && Gapped(s, pages)
    ensures Search(s, pages + 2, pages, 0) == None
  {
    var last, n := pages + 2, |s|;
    assert last % n == last by { Multiples.DivUnique(last, 0, last, n); }
    BlockAt(0, last, n);
    BlockAt(pages - 1, last, n);
    assert Search(s, last, pages, 0) == Search(s, last, pages, pages - 1);
    if pages > 5 {
      assert Search(s, last, pages, pages - 1) == Search(s, last, pages, pages - 1 + (pages - 2) + 1);
    } else {
      BlockAt(pages + 2, last, n);
      assert ClearFrom(s, pages - 2, pages) == 2 by { Two(s, pages); }
      assert Search(s, last, pages, pages - 1) == Search(s, last, pages, pages + 2);
      assert Search(s, last, pages, pages + 2) == Search(s, last, pages, pages + 2 + (pages - 2) + 1);
    }
  }

  lemma Two(s: seq<bool>, pages: nat)
    requires 2 < pages <= 5 && Gapped(s, pages)
    ensures ClearFrom(s, pages - 2, pages) == 2
  {
    assert ClearFrom(s, pages, pages - 2) == 0;
    assert ClearFrom(s, pages - 1, pages - 1) == 1;
  }

  // All pages free; all but one allocated; the last one taken; a run and one page given back.
  function ToGapped(pages: nat): (ops: seq<Op>) {
    [OpSet(0, pages + 3, false), OpAlloc(pages + 2), OpSet(pages + 2, 1, true), OpFree(0, pages), OpFree(pages + 1, 1)]
  }

  lemma FirstStep(m: Mem, ops: seq<Op>)
    requires ops != [] && Enabled(m, ops[0])
    ensures After(m, ops) == After(Apply(m, ops[0]), ops[1..])
  {
  }

  lemma ReachesGapped(pages: nat)
    requires pages > 0
    ensures var m := After(Start(pages + 3), ToGapped(pages));
            Gapped(m.bitmap, pages) && m.last == pages + 2 && Clear(m.bitmap) == pages + 1
  {
    hide After, Marked, Search, Clear;
    var n, ops := pages + 3, ToGapped(pages);
    var m0 := Start(n);
    NoneClear(m0.bitmap);
    var m1 := Apply(m0, ops[0]);
    MarkedClear(m0.bitmap, 0, n, false);
    FirstStep(m0, ops);
    WholeGranted(m1, pages + 2);
    var m2 := Apply(m1, ops[1]);
    MarkedClear(m1.bitmap, 0, pages + 2, true);
    FirstStep(m1, ops[1..]);
    var m3 := Apply(m2, ops[2]);
    MarkedClear(m2.bitmap, pages + 2, 1, true);
    FirstStep(m2, ops[2..]);
    var m4 := Apply(m3, ops[3]);
    MarkedClear(m3.bitmap, 0, pages, false);
    FirstStep(m3, ops[3..]);
    var m5 := Apply(m4, ops[4]);
    MarkedClear(m4.bitmap, pages + 1, 1, false);
    FirstStep(m4, ops[4..]);
    RunEnds(m5, ops[5..]);
  }

  lemma RunEnds(m: Mem, ops: seq<Op>)
    requires ops == []
    ensures After(m, ops) == m
  {
  }

  lemma WholeGranted(m: Mem, pages: nat)
    requires 0 < pages < |m.bitmap| == Clear(m.bitmap) && m.last == 0 && All(m.bitmap, 0, |m.bitmap|, false)
    ensures Grant(m, pages) == Some(0)
  {
    assert ClearFrom(m.bitmap, 0, pages) == pages;
  }

  // However the pages were set, allocated and freed before: memory_alloc grants every request for which
  // more pages are free and a run is there, exactly for requests of one or two pages.
  lemma CompleteExactly(pages: nat)
    requires pages > 0
    ensures (forall total: nat, ops :: !Refuses(After(Start(total), ops), pages)) <==> pages <= 2
  {
    if pages <= 2 {
      forall total: nat, ops ensures !Refuses(After(Start(total), ops), pages) {
        SmallGranted(After(Start(total), ops), pages);
      }
    } else {
      ReachesGapped(pages);
      var m := After(Start(pages + 3), ToGapped(pages));
      SearchFailsOn(m.bitmap, pages);
      assert All(m.bitmap, 0, pages, false);
    }
  }

  lemma SmallGranted(m: Mem, pages: nat)
    requires 0 < pages <= 2
    ensures Grant(m, pages) != None <==> Clear(m.bitmap) > pages && HasRun(m.bitmap, pages)
  {
    if Clear(m.bitmap) > pages && HasRun(m.bitmap, pages) {
      var b :| 0 <= b && All(m.bitmap, b, pages, false);
      NotPassed(m.bitmap, m.last, pages, 0, b);
    }
  }

  // ---- addresses ----

  function RoundDown(x: nat): (y: nat)
    ensures y % PAGE_SIZE == 0 && y <= x < y + PAGE_SIZE
  {
    x / PAGE_SIZE * PAGE_SIZE
  }

  class Pages {
    const bitmap: array<bool>
    const offset: nat
    var freePages: int
    var lastPage: nat
    // how often memory_alloc was called, and how often it returned NULL
    ghost var asked: nat
    ghost var refused: nat

    ghost predicate Valid()
      reads this, bitmap
    {
      offset % PAGE_SIZE == 0 && freePages == Clear(bitmap[..])
    }

    // init_physmem: every page starts out in use.
    constructor (offset: nat, pages: nat)
      requires offset % PAGE_SIZE == 0
      ensures Valid() && fresh(bitmap) && bitmap.Length == pages && this.offset == offset
      ensures All(bitmap[..], 0, pages, true) && freePages == 0 && State() == Start(pages)
    {
      this.offset, freePages, lastPage := offset, 0, 0;
      asked, refused := 0, 0;
      bitmap := new bool[pages](_ => true);
      new;
      NoneClear(bitmap[..]);
    }

    function Address(page: nat): nat { page * PAGE_SIZE + offset }

    ghost function State(): Mem
      reads this, bitmap
    {
      Mem(bitmap[..], lastPage)
    }

    // The scan of memory_multiple_alloc, from the last page on and around.
    method FindRun(pages: nat) returns (r: Option<nat>)
      requires pages > 0 && bitmap.Length > 0
      ensures r == Search(bitmap[..], lastPage, pages, 0)
      ensures r != None ==> All(bitmap[..], r.value, pages, false)
      ensures r == None ==> NoRunBut(pages)
    {
      var i := 0;
      while i < bitmap.Length
        invariant 0 <= i && Search(bitmap[..], lastPage, pages, 0) == Search(bitmap[..], lastPage, pages, i)
      {
        var block := (i + lastPage) % bitmap.Length;
        if block + pages > bitmap.Length {
          i := i + (pages - 2) + 1;
          continue;
        }
        var j := 0;
        while j < pages && !bitmap[block + j]
          invariant j <= pages && ClearFrom(bitmap[..], block, pages) == j + ClearFrom(bitmap[..], block + j, pages - j)
        {
          j := j + 1;
        }
        if j == pages { return Some(block); }
        i := i + j + 1;
      }
      r := None;
      forall b | 0 <= b && All(bitmap[..], b, pages, false) ensures b < lastPage % bitmap.Length && b + 2 < pages {
        SearchMisses(bitmap[..], lastPage, pages, b);
      }
    }

    // There is no clear run but for those that the search can pass over.
    ghost predicate NoRunBut(pages: nat)
      reads this`lastPage, bitmap
    {
      forall b :: 0 <= b && All(bitmap[..], b, pages, false) ==>
        bitmap.Length > 0 && b < lastPage % bitmap.Length && b + 2 < pages
    }

    method MultipleAlloc(pages: nat) returns (r: Option<nat>, ghost block: nat)
      requires Valid() && pages > 0 && bitmap.Length > 0
      modifies this`freePages, this`lastPage, bitmap
      ensures Valid()
      ensures r == None <==> Search(old(bitmap[..]), old(lastPage), pages, 0) == None
      ensures r != None ==> Search(old(bitmap[..]), old(lastPage), pages, 0) == Some(block)
      ensures r == None ==> bitmap[..] == old(bitmap[..]) && freePages == old(freePages)
      ensures lastPage == if r == None then old(lastPage) else block + pages
      ensures r != None ==> All(old(bitmap[..]), block, pages, false) && r == Some(Address(block))
                            && bitmap[..] == Marked(old(bitmap[..]), block, pages, true)
                            && freePages == old(freePages) - pages
      ensures r == None ==> NoRunBut(pages)
    {
      r, block := None, 0;
      var found := FindRun(pages);
      if found == None { return; }
      var at := found.value;
      block := at;
      MarkedClear(bitmap[..], at, pages, true);
      var i := 0;
      while i < pages
        invariant i <= pages && bitmap[..] == Marked(old(bitmap[..]), at, i, true)
        invariant freePages == old(freePages) - i
      {
        bitmap[at + i] := true;
        freePages := freePages - 1;
        i := i + 1;
      }
      lastPage := at + pages;
      r := Some(at * PAGE_SIZE + offset);
    }

    method Alloc(pages: nat) returns (r: Option<nat>, ghost block: nat)
      requires Valid() && pages > 0
      modifies this, bitmap
      ensures Valid()
      ensures r == None ==> bitmap[..] == old(bitmap[..]) && freePages == old(freePages)
      ensures lastPage == if r == None then old(lastPage) else block + pages
      ensures r != None ==> All(old(bitmap[..]), block, pages, false) && r == Some(Address(block))
                            && bitmap[..] == Marked(old(bitmap[..]), block, pages, true)
                            && freePages == old(freePages) - pages
      ensures old(freePages) <= pages ==> r == None
      ensures asked == old(asked) + 1 && refused == old(refused) + if r == None then 1 else 0
      ensures State() == Apply(old(State()), OpAlloc(pages))
      ensures r == if Grant(old(State()), pages) == None then None else Some(Address(block))
      ensures r == None ==> old(freePages) <= pages || NoRunBut(pages)
      ensures pages <= 2 ==> (r != None <==> old(freePages) > pages && HasRun(old(bitmap[..]), pages))
      ensures pages == 1 ==> (r != None <==> old(freePages) > 1)
    {
      hide Search, Marked, Clear, HasRun;
      r, block := None, 0;
      if pages <= 2 { SmallGranted(State(), pages); }
      if freePages > pages {
        ghost var k := SomeClear(bitmap[..]);
        assert pages == 1 ==> All(bitmap[..], k, pages, false);
        r, block := MultipleAlloc(pages);
      }
      asked := asked + 1;
      if r == None { refused := refused + 1; }
    }

    method Free(pages: nat, position: nat)
      requires Valid() && position >= offset && (position - offset) % PAGE_SIZE == 0
      requires All(bitmap[..], (position - offset) / PAGE_SIZE, pages, true)
      modifies this`freePages, bitmap
      ensures Valid() && freePages == old(freePages) + pages
      ensures bitmap[..] == Marked(old(bitmap[..]), (position - offset) / PAGE_SIZE, pages, false)
      ensures State() == Apply(old(State()), OpFree((position - offset) / PAGE_SIZE, pages))
    {
      var start := (position - offset) / PAGE_SIZE;
      MarkedClear(bitmap[..], start, pages, false);
      var i := 0;
      while i < pages
        invariant i <= pages && bitmap[..] == Marked(old(bitmap[..]), start, i, false)
        invariant freePages == old(freePages) + i
      {
        bitmap[start + i] := false;
        freePages := freePages + 1;
        i := i + 1;
      }
    }

    // The pages memory_set touches: those that meet [pstart, pend), or those that lie inside it.
    function SetStart(pstart: nat, used: bool): nat {
      if used then RoundDown(pstart) else Multiples.RoundUp(pstart, PAGE_SIZE)
    }

    function SetEnd(pend: nat, used: bool): nat {
      if used then Multiples.RoundUp(pend, PAGE_SIZE) else RoundDown(pend)
    }

    // The pages of an address range that begins and ends with a page.
    function PageRange(start: nat, end: nat): (nat, nat)
      requires offset <= start <= end
    {
      ((start - offset) / PAGE_SIZE, (end - start) / PAGE_SIZE)
    }

    method Set(pstart: nat, pend: nat, used: bool)
      requires Valid() && offset <= SetStart(pstart, used) <= SetEnd(pend, used) <= Address(bitmap.Length)
      modifies this`freePages, bitmap
      ensures Valid()
      ensures var (page, pages) := PageRange(SetStart(pstart, used), SetEnd(pend, used));
              && Enabled(old(State()), OpSet(page, pages, used))
              && State() == Apply(old(State()), OpSet(page, pages, used))
      ensures forall p :: 0 <= p < bitmap.Length ==>
                bitmap[p] == if used then old(bitmap[p]) || Meets(p, pstart, pend)
                             else old(bitmap[p]) && !Within(p, pstart, pend)
    {
      Rounded(pstart, pend, used);
      var start, end := SetStart(pstart, used), SetEnd(pend, used);
      SetRun((start - offset) / PAGE_SIZE, (end - start) / PAGE_SIZE, used);
      forall p | 0 <= p < bitmap.Length
        ensures SetStart(pstart, used) <= Address(p) < SetEnd(pend, used) <==>
                if used then Meets(p, pstart, pend) else Within(p, pstart, pend)
      {
        Touched(p, pstart, pend, used);
      }
    }

    // The page has an address in [pstart, pend), or has all its addresses there.
    predicate Meets(page: nat, pstart: nat, pend: nat) {
      Address(page) < pend && pstart < Address(page) + PAGE_SIZE
    }

    predicate Within(page: nat, pstart: nat, pend: nat) {
      pstart <= Address(page) && Address(page) + PAGE_SIZE <= pend
    }

    lemma Touched(page: nat, pstart: nat, pend: nat, used: bool)
      requires offset % PAGE_SIZE == 0
      ensures SetStart(pstart, used) <= Address(page) < SetEnd(pend, used) <==>
              if used then Meets(page, pstart, pend) else Within(page, pstart, pend)
    {
      Multiples.RoundUpIsMultiple(pstart, PAGE_SIZE);
      Multiples.RoundUpIsMultiple(pend, PAGE_SIZE);
    }

    // The loop of memory_set.
    method SetRun(start: nat, pages: nat, used: bool)
      requires Valid() && start + pages <= bitmap.Length
      modifies this`freePages, bitmap
      ensures Valid() && bitmap[..] == Marked(old(bitmap[..]), start, pages, used)
    {
      var i := 0;
      while i < pages
        invariant i <= pages && bitmap[..] == Marked(old(bitmap[..]), start, i, used)
        invariant freePages == Clear(bitmap[..])
      {
        ClearUpdate(bitmap[..], start + i, used);
        var was := bitmap[start + i];
        bitmap[start + i] := used;
        if used && !was { freePages := freePages - 1; }
        if !used && was { freePages := freePages + 1; }
        assert bitmap[..] == Marked(old(bitmap[..]), start, i, used)[start + i := used];
        i := i + 1;
      }
    }

    lemma Rounded(pstart: nat, pend: nat, used: bool)
      requires offset % PAGE_SIZE == 0
      requires offset <= SetStart(pstart, used) <= SetEnd(pend, used) <= Address(bitmap.Length)
      ensures var start := (SetStart(pstart, used) - offset) / PAGE_SIZE;
              var pages := (SetEnd(pend, used) - SetStart(pstart, used)) / PAGE_SIZE;
              && start + pages <= bitmap.Length
              && Address(start) == SetStart(pstart, used) && Address(start + pages) == SetEnd(pend, used)
    {
      Multiples.RoundUpIsMultiple(if used then pend else pstart, PAGE_SIZE);
      hide RoundDown, Multiples.RoundUp;
      var a, b := SetStart(pstart, used), SetEnd(pend, used);
      WholePages(a - offset);
      WholePages(b - a);
    }
  }

  lemma WholePages(x: nat)
    requires x % PAGE_SIZE == 0
    ensures x / PAGE_SIZE * PAGE_SIZE == x
  {
  }

  lemma {:induction false} NoneClear(s: seq<bool>)
    requires forall i :: 0 <= i < |s| ==> s[i]
    ensures Clear(s) == 0
  {
    if s != [] { NoneClear(s[1..]); }
  }
}
