// The extents of a vmem arena as plain values: what kernel/mm/vmem.c keeps in its ordered
// list of boundary tags, without the pointers. Vmem.dfy refines this with linked tags.
module Extents {

  // A span handed to vmem_add.
  datatype Range = Range(addr: nat, size: nat)

  // A boundary tag: [addr, addr + size) of its span, either in use or free.
  datatype Extent = Extent(addr: nat, size: nat, used: bool, span: Range)

  function End(e: Extent): nat { e.addr + e.size }

  function Limit(r: Range): nat { r.addr + r.size }

  predicate Inside(e: Extent) {
    e.size > 0 && e.span.addr <= e.addr && End(e) <= Limit(e.span)
  }

  // What two neighbours in the tag list owe each other.
  predicate Meets(a: Extent, b: Extent) {
    if a.span == b.span then End(a) == b.addr && (a.used || b.used)
    else End(a) == Limit(a.span) && b.addr == b.span.addr && Limit(a.span) <= b.span.addr
  }

  predicate Opens(e: Extent) { e.addr == e.span.addr }

  predicate Closes(e: Extent) { End(e) == Limit(e.span) }

  // Ordered, gapless inside each span, no two free neighbours.
  ghost predicate Chain(ts: seq<Extent>) {
    && (forall i :: 0 <= i < |ts| ==> Inside(ts[i]))
    && (forall i :: 0 <= i < |ts| - 1 ==> Meets(ts[i], ts[i + 1]))
  }

  // A whole tag list: it tiles every span it mentions exactly.
  ghost predicate Tiled(ts: seq<Extent>) {
    Chain(ts) && (ts != [] ==> Opens(ts[0]) && Closes(ts[|ts| - 1]))
  }

  predicate OnQuantum(e: Extent, q: nat)
    requires q > 0 && Inside(e)
  {
    e.size % q == 0 && (e.addr - e.span.addr) % q == 0
  }

  ghost predicate Quantized(ts: seq<Extent>, q: nat)
    requires q > 0 && Chain(ts)
  {
    forall i :: 0 <= i < |ts| ==> OnQuantum(ts[i], q)
  }

  function Spans(ts: seq<Extent>): set<Range> { set e | e in ts :: e.span }

  function UsedSet(ts: seq<Extent>): set<Extent> { set e | e in ts && e.used }

  // ---- order ----

  lemma {:induction false} Ordered(ts: seq<Extent>, i: nat, j: nat)
    requires Chain(ts) && i < j < |ts|
    ensures End(ts[i]) <= ts[j].addr
    ensures ts[i].span == ts[j].span || Limit(ts[i].span) <= ts[j].span.addr
    decreases j - i
  {
    assert Meets(ts[i], ts[i + 1]) && Inside(ts[i + 1]);
    if i + 1 < j {
      Ordered(ts, i + 1, j);
    }
  }

  // Extents that share an address are the same extent.
  lemma Same(ts: seq<Extent>, i: nat, j: nat, x: nat)
    requires Chain(ts) && i < |ts| && j < |ts|
    requires ts[i].addr <= x < End(ts[i]) && ts[j].addr <= x < End(ts[j])
    ensures i == j
  {
    if i < j { Ordered(ts, i, j); } else if j < i { Ordered(ts, j, i); }
  }

  // Every address of a span from some extent on lies in an extent of it.
  lemma {:induction false} Covers(ts: seq<Extent>, k: nat, x: nat) returns (i: nat)
    requires Tiled(ts) && k < |ts|
    requires ts[k].addr <= x < Limit(ts[k].span)
    ensures k <= i < |ts| && ts[i].addr <= x < End(ts[i]) && ts[i].span == ts[k].span
    decreases |ts| - k
  {
    i := k;
    if End(ts[k]) <= x {
      assert k + 1 < |ts| && Meets(ts[k], ts[k + 1]);
      i := Covers(ts, k + 1, x);
    }
  }

  // The first extent of a span starts where the span starts.
  lemma {:induction false} First(ts: seq<Extent>, k: nat) returns (i: nat)
    requires Tiled(ts) && k < |ts|
    ensures i <= k && ts[i].span == ts[k].span && Opens(ts[i])
  {
    i := k;
    if !Opens(ts[k]) {
      assert k > 0 && Meets(ts[k - 1], ts[k]);
      i := First(ts, k - 1);
    }
  }

  // ---- free runs ----

  predicate Fit(e: Extent, n: nat) { !e.used && e.size >= n }

  ghost predicate FreeAddress(ts: seq<Extent>, x: nat) {
    exists i :: 0 <= i < |ts| && !ts[i].used && ts[i].addr <= x < End(ts[i])
  }

  // [a, a + n) lies inside one span and nothing in it is in use.
  ghost predicate FreeRun(ts: seq<Extent>, r: Range, a: nat, n: nat) {
    r in Spans(ts) && r.addr <= a && a + n <= Limit(r) && forall x :: a <= x < a + n ==> FreeAddress(ts, x)
  }

  // The extent holding the start of a free run holds all of it: neighbours are never both free.
  lemma RunInOneExtent(ts: seq<Extent>, r: Range, a: nat, n: nat) returns (i: nat)
    requires Tiled(ts) && n > 0 && FreeRun(ts, r, a, n)
    ensures i < |ts| && !ts[i].used && ts[i].span == r && ts[i].addr <= a && a + n <= End(ts[i])
  {
    var k :| 0 <= k < |ts| && ts[k].span == r;
    var f := First(ts, k);
    i := Covers(ts, f, a);
    assert FreeAddress(ts, a);
    var j :| 0 <= j < |ts| && !ts[j].used && ts[j].addr <= a < End(ts[j]);
    Same(ts, i, j, a);
    if End(ts[i]) < a + n {
      var x := End(ts[i]);
      assert i + 1 < |ts| && Meets(ts[i], ts[i + 1]) && Inside(ts[i + 1]);
      assert FreeAddress(ts, x);
      var m :| 0 <= m < |ts| && !ts[m].used && ts[m].addr <= x < End(ts[m]);
      Same(ts, i + 1, m, x);
    }
  }

  // A free extent of size n exists exactly when some span has n free addresses in a row.
  lemma FitIffRun(ts: seq<Extent>, n: nat)
    requires Tiled(ts) && n > 0
    ensures (exists i :: 0 <= i < |ts| && Fit(ts[i], n)) <==> (exists r, a :: FreeRun(ts, r, a, n))
  {
    if exists r, a :: FreeRun(ts, r, a, n) {
      var r, a :| FreeRun(ts, r, a, n);
      var i := RunInOneExtent(ts, r, a, n);
      assert Fit(ts[i], n);
    }
    if i :| 0 <= i < |ts| && Fit(ts[i], n) {
      assert Inside(ts[i]);
      assert ts[i].span in Spans(ts);
      assert FreeRun(ts, ts[i].span, ts[i].addr, n);
    }
  }

  // ---- replacing a stretch of the list ----

  function Splice(ts: seq<Extent>, i: nat, j: nat, mid: seq<Extent>): (us: seq<Extent>)
    requires i <= j <= |ts|
  {
    ts[..i] + mid + ts[j..]
  }

  // The new stretch is a chain, and meets what is left and right of it (or a span's edge).
  ghost predicate Joins(ts: seq<Extent>, i: nat, j: nat, mid: seq<Extent>)
    requires i <= j <= |ts| && mid != []
  {
    && Chain(mid)
    && (if i > 0 then Meets(ts[i - 1], mid[0]) else Opens(mid[0]))
    && (if j < |ts| then Meets(mid[|mid| - 1], ts[j]) else Closes(mid[|mid| - 1]))
  }

  lemma SpliceTiled(ts: seq<Extent>, i: nat, j: nat, mid: seq<Extent>)
    requires Tiled(ts) && i <= j <= |ts| && mid != [] && Joins(ts, i, j, mid)
    ensures Tiled(Splice(ts, i, j, mid))
  {
    var us, m := Splice(ts, i, j, mid), |mid|;
    assert forall k :: 0 <= k < i ==> us[k] == ts[k];
    assert forall k :: i <= k < i + m ==> us[k] == mid[k - i];
    assert forall k :: i + m <= k < |us| ==> us[k] == ts[k - i - m + j];
    forall k | 0 <= k < |us| - 1 ensures Meets(us[k], us[k + 1]) {
      if k + 1 < i { assert Meets(ts[k], ts[k + 1]); }
      else if i <= k < i + m - 1 { assert Meets(mid[k - i], mid[k - i + 1]); }
      else if i + m <= k { assert Meets(ts[k - i - m + j], ts[k - i - m + j + 1]); }
    }
  }

  lemma SpliceMembers(ts: seq<Extent>, i: nat, j: nat, mid: seq<Extent>, e: Extent)
    requires i <= j <= |ts|
    ensures e in Splice(ts, i, j, mid) <==> e in ts[..i] || e in mid || e in ts[j..]
    ensures e in ts <==> e in ts[..i] || e in ts[i..j] || e in ts[j..]
  {
    assert ts == ts[..i] + ts[i..j] + ts[j..];
  }

  // ---- the three operations ----

  // vmem_alloc once a tag is chosen: the right end of it is taken.
  function AllocAt(ts: seq<Extent>, i: nat, n: nat): (us: seq<Extent>)
    requires i < |ts| && 0 < n <= ts[i].size
  {
    Splice(ts, i, i + 1, Cut(ts[i], n))
  }

  function Cut(e: Extent, n: nat): seq<Extent>
    requires 0 < n <= e.size
  {
    if e.size == n then [Taken(e, n)] else [e.(size := e.size - n), Taken(e, n)]
  }

  function Taken(e: Extent, n: nat): (t: Extent)
    requires n <= e.size
  {
    Extent(e.addr + (e.size - n), n, true, e.span)
  }

  // vmem_free: the tag becomes free and melts into a free left, then a free right neighbour.
  predicate MergesLeft(ts: seq<Extent>, i: nat)
    requires i < |ts|
  {
    i > 0 && !ts[i - 1].used && ts[i - 1].addr >= ts[i].span.addr
  }

  predicate MergesRight(ts: seq<Extent>, i: nat)
    requires i < |ts|
  {
    i + 1 < |ts| && !ts[i + 1].used && ts[i + 1].addr < Limit(ts[i].span)
  }

  function Merged(ts: seq<Extent>, i: nat): Extent
    requires i < |ts|
  {
    var l := if MergesLeft(ts, i) then ts[i - 1].(size := ts[i - 1].size + ts[i].size) else ts[i].(used := false);
    if MergesRight(ts, i) then l.(size := l.size + ts[i + 1].size) else l
  }

  function FreeAt(ts: seq<Extent>, i: nat): (us: seq<Extent>)
    requires i < |ts|
  {
    Splice(ts, FreeLow(ts, i), FreeHigh(ts, i), [Merged(ts, i)])
  }

  // vmem_add: a new free extent goes before the first tag that does not start below it.
  function Place(ts: seq<Extent>, addr: nat): (k: nat)
    ensures k <= |ts|
    ensures forall i :: 0 <= i < k ==> ts[i].addr < addr
    ensures k < |ts| ==> ts[k].addr >= addr
  {
    if ts == [] || ts[0].addr >= addr then 0 else 1 + Place(ts[1..], addr)
  }

  function Whole(r: Range): Extent { Extent(r.addr, r.size, false, r) }

  function AddAt(ts: seq<Extent>, r: Range): (us: seq<Extent>) {
    Splice(ts, Place(ts, r.addr), Place(ts, r.addr), [Whole(r)])
  }

  predicate Apart(a: Range, b: Range) { Limit(a) <= b.addr || Limit(b) <= a.addr }

  predicate Holds(r: Range, x: nat) { r.addr <= x < Limit(r) }

  // They have no address in common.
  lemma ApartExactly(a: Range, b: Range)
    requires a.size > 0 && b.size > 0
    ensures Apart(a, b) <==> forall x: nat :: Holds(a, x) ==> !Holds(b, x)
  {
    if !Apart(a, b) {
      var x := if a.addr < b.addr then b.addr else a.addr;
      assert Holds(a, x) && Holds(b, x);
    }
  }

  // ---- what every operation keeps ----

  lemma AllocJoins(ts: seq<Extent>, i: nat, n: nat)
    requires Tiled(ts) && i < |ts| && 0 < n && Fit(ts[i], n)
    ensures Joins(ts, i, i + 1, Cut(ts[i], n))
  {
    assert Inside(ts[i]);
    if i > 0 { assert Meets(ts[i - 1], ts[i]); }
    if i + 1 < |ts| { assert Meets(ts[i], ts[i + 1]); }
  }

  lemma AllocKeeps(ts: seq<Extent>, i: nat, n: nat)
    requires Tiled(ts) && i < |ts| && 0 < n && Fit(ts[i], n)
    ensures Tiled(AllocAt(ts, i, n))
    ensures Spans(AllocAt(ts, i, n)) == Spans(ts)
    ensures Taken(ts[i], n) !in ts && UsedSet(AllocAt(ts, i, n)) == UsedSet(ts) + {Taken(ts[i], n)}
  {
    var t, mid := Taken(ts[i], n), Cut(ts[i], n);
    AllocJoins(ts, i, n);
    SpliceTiled(ts, i, i + 1, mid);
    NotYetTaken(ts, i, n);
    hide Tiled, Joins, Splice, Chain;
    assert ts[i..i + 1] == [ts[i]] && mid[|mid| - 1].span == ts[i].span;
    OneSpan(ts[i..i + 1], mid, ts[i].span, 0);
    SameSpans(ts, i, i + 1, mid);
    UsedOfSplice(ts, i, i + 1, mid);
    assert UsedSet(mid) == {t} by { assert mid[|mid| - 1] == t; }
    assert UsedSet([ts[i]]) == {};
  }

  lemma NotYetTaken(ts: seq<Extent>, i: nat, n: nat)
    requires Tiled(ts) && i < |ts| && 0 < n && Fit(ts[i], n)
    ensures Taken(ts[i], n) !in ts
  {
    var t := Taken(ts[i], n);
    assert Inside(ts[i]);
    if t in ts {
      var j :| 0 <= j < |ts| && ts[j] == t;
      Same(ts, i, j, t.addr);
    }
  }

  lemma SameSpans(ts: seq<Extent>, i: nat, j: nat, mid: seq<Extent>)
    requires i <= j <= |ts| && Spans(mid) == Spans(ts[i..j])
    ensures Spans(Splice(ts, i, j, mid)) == Spans(ts)
  {
    var us := Splice(ts, i, j, mid);
    forall r ensures r in Spans(us) <==> r in Spans(ts) {
      if r in Spans(us) {
        var e :| e in us && e.span == r;
        SpliceMembers(ts, i, j, mid, e);
        if e in mid { assert r in Spans(mid); var f :| f in ts[i..j] && f.span == r; SpliceMembers(ts, i, j, mid, f); }
      }
      if r in Spans(ts) {
        var e :| e in ts && e.span == r;
        SpliceMembers(ts, i, j, mid, e);
        if e in ts[i..j] {
          assert r in Spans(ts[i..j]);
          var f :| f in mid && f.span == r;
          SpliceMembers(ts, i, j, mid, f);
        }
      }
    }
  }

  lemma UsedOfSplice(ts: seq<Extent>, i: nat, j: nat, mid: seq<Extent>)
    requires i <= j <= |ts|
    ensures UsedSet(Splice(ts, i, j, mid)) == UsedSet(ts[..i]) + UsedSet(mid) + UsedSet(ts[j..])
    ensures UsedSet(ts) == UsedSet(ts[..i]) + UsedSet(ts[i..j]) + UsedSet(ts[j..])
  {
    forall e
      ensures e in UsedSet(Splice(ts, i, j, mid)) <==> e in UsedSet(ts[..i]) + UsedSet(mid) + UsedSet(ts[j..])
      ensures e in UsedSet(ts) <==> e in UsedSet(ts[..i]) + UsedSet(ts[i..j]) + UsedSet(ts[j..])
    {
      SpliceMembers(ts, i, j, mid, e);
    }
  }

  // The stretch of the list that freeing extent i replaces.
  function FreeLow(ts: seq<Extent>, i: nat): nat
    requires i < |ts|
  {
    if MergesLeft(ts, i) then i - 1 else i
  }

  function FreeHigh(ts: seq<Extent>, i: nat): nat
    requires i < |ts|
  {
    if MergesRight(ts, i) then i + 2 else i + 1
  }

  // The source decides by addresses whether a free neighbour is in the same span: it is right.
  lemma MergeTests(ts: seq<Extent>, i: nat)
    requires Chain(ts) && i < |ts|
    ensures MergesLeft(ts, i) <==> i > 0 && !ts[i - 1].used && ts[i - 1].span == ts[i].span
    ensures MergesRight(ts, i) <==> i + 1 < |ts| && !ts[i + 1].used && ts[i + 1].span == ts[i].span
  {
    assert Inside(ts[i]);
    if i > 0 { assert Meets(ts[i - 1], ts[i]) && Inside(ts[i - 1]); }
    if i + 1 < |ts| { assert Meets(ts[i], ts[i + 1]) && Inside(ts[i + 1]); }
  }

  lemma MergedShape(ts: seq<Extent>, i: nat)
    requires Tiled(ts) && i < |ts| && ts[i].used
    ensures Merged(ts, i).span == ts[i].span && !Merged(ts, i).used && Inside(Merged(ts, i))
    ensures Merged(ts, i).addr == ts[FreeLow(ts, i)].addr && End(Merged(ts, i)) == End(ts[FreeHigh(ts, i) - 1])
  {
    MergeTests(ts, i);
    assert Inside(ts[i]);
    if MergesLeft(ts, i) { assert Meets(ts[i - 1], ts[i]) && Inside(ts[i - 1]); }
    if MergesRight(ts, i) { assert Meets(ts[i], ts[i + 1]) && Inside(ts[i + 1]); }
  }

  lemma FreeJoins(ts: seq<Extent>, i: nat)
    requires Tiled(ts) && i < |ts| && ts[i].used
    ensures Joins(ts, FreeLow(ts, i), FreeHigh(ts, i), [Merged(ts, i)])
    ensures forall k :: FreeLow(ts, i) <= k < FreeHigh(ts, i) ==> ts[k].span == ts[i].span && (ts[k].used ==> k == i)
  {
    var lo, hi, m := FreeLow(ts, i), FreeHigh(ts, i), Merged(ts, i);
    MergedShape(ts, i);
    MergeTests(ts, i);
    if lo > 0 { assert Meets(ts[lo - 1], ts[lo]); }
    if hi < |ts| { assert Meets(ts[hi - 1], ts[hi]); }
    if lo > 0 && lo < i { assert Meets(ts[i - 2], ts[i - 1]); }
  }

  lemma AloneInStretch(ts: seq<Extent>, i: nat, lo: nat, hi: nat)
    requires Chain(ts) && lo <= i < hi <= |ts| && ts[i].used
    requires forall k :: lo <= k < hi && ts[k].used ==> k == i
    ensures UsedSet(ts[lo..hi]) == {ts[i]}
    ensures ts[i] !in ts[..lo] && ts[i] !in ts[hi..]
  {
    assert ts[lo..hi][i - lo] == ts[i];
    assert Inside(ts[i]);
    forall k | 0 <= k < |ts| && k != i ensures ts[k] != ts[i] {
      if ts[k] == ts[i] { Same(ts, i, k, ts[i].addr); }
    }
  }

  lemma FreeKeeps(ts: seq<Extent>, i: nat)
    requires Tiled(ts) && i < |ts| && ts[i].used
    ensures Tiled(FreeAt(ts, i))
    ensures Spans(FreeAt(ts, i)) == Spans(ts)
    ensures UsedSet(FreeAt(ts, i)) == UsedSet(ts) - {ts[i]}
  {
    var lo, hi, m := FreeLow(ts, i), FreeHigh(ts, i), Merged(ts, i);
    FreeJoins(ts, i);
    SpliceTiled(ts, lo, hi, [m]);
    MergedShape(ts, i);
    OneSpan(ts[lo..hi], [m], ts[i].span, i - lo);
    SameSpans(ts, lo, hi, [m]);
    UsedOfSplice(ts, lo, hi, [m]);
    AloneInStretch(ts, i, lo, hi);
    assert UsedSet([m]) == {};
    assert ts[i] !in UsedSet(ts[..lo]) && ts[i] !in UsedSet(ts[hi..]);
  }

  lemma OneSpan(a: seq<Extent>, b: seq<Extent>, r: Range, k: nat)
    requires k < |a| && |b| > 0
    requires forall i :: 0 <= i < |a| ==> a[i].span == r
    requires forall i :: 0 <= i < |b| ==> b[i].span == r
    ensures Spans(a) == Spans(b) == {r}
  {
    assert a[k] in a && b[0] in b;
  }

  lemma AddJoins(ts: seq<Extent>, r: Range)
    requires Tiled(ts) && r.size > 0 && forall s :: s in Spans(ts) ==> Apart(s, r)
    ensures Joins(ts, Place(ts, r.addr), Place(ts, r.addr), [Whole(r)])
  {
    var k := Place(ts, r.addr);
    if k > 0 {
      assert Inside(ts[k - 1]) && ts[k - 1].span in Spans(ts);
      if !Closes(ts[k - 1]) { assert Meets(ts[k - 1], ts[k]) && Inside(ts[k]); }
    }
    if k < |ts| {
      assert Inside(ts[k]) && ts[k].span in Spans(ts);
      if !Opens(ts[k]) { assert Meets(ts[k - 1], ts[k]); }
    }
  }

  lemma AddKeeps(ts: seq<Extent>, r: Range)
    requires Tiled(ts) && r.size > 0 && forall s :: s in Spans(ts) ==> Apart(s, r)
    ensures Tiled(AddAt(ts, r))
    ensures Spans(AddAt(ts, r)) == Spans(ts) + {r} && r !in Spans(ts)
    ensures UsedSet(AddAt(ts, r)) == UsedSet(ts)
  {
    var us, k, mid := AddAt(ts, r), Place(ts, r.addr), [Whole(r)];
    AddJoins(ts, r);
    SpliceTiled(ts, k, k, mid);
    forall e ensures e in us <==> e in ts || e == Whole(r) { SpliceMembers(ts, k, k, mid, e); }
    assert Whole(r) in us;
  }

  // ---- the same free in the small steps of the source ----

  // Extent j takes over the one to its right.
  function Join(ts: seq<Extent>, j: nat): (us: seq<Extent>)
    requires j + 1 < |ts|
  {
    ts[..j] + [ts[j].(size := ts[j].size + ts[j + 1].size)] + ts[j + 2..]
  }

  function MeltLeft(ts: seq<Extent>, i: nat): seq<Extent>
    requires i < |ts|
  {
    if MergesLeft(ts, i) then Join(ts, i - 1) else ts
  }

  function MeltRight(ts: seq<Extent>, i: nat): seq<Extent>
    requires i < |ts|
  {
    if MergesRight(ts, i) then Join(ts, i) else ts
  }

  function AfterLeft(ts: seq<Extent>, i: nat): seq<Extent>
    requires i < |ts|
  {
    if MergesLeft(ts, i) then ts[..i - 1] + [ts[i - 1].(size := ts[i - 1].size + ts[i].size)] + ts[i + 1..]
    else ts[..i] + [ts[i].(used := false)] + ts[i + 1..]
  }

  lemma RightAfterLeft(ts: seq<Extent>, i: nat)
    requires Tiled(ts) && i < |ts| && ts[i].used
    ensures |AfterLeft(ts, i)| == FreeLow(ts, i) + |ts| - i
    ensures MergesRight(AfterLeft(ts, i), FreeLow(ts, i)) <==> MergesRight(ts, i)
  {
    MergeTests(ts, i);
    var vs, lo := AfterLeft(ts, i), FreeLow(ts, i);
    assert vs[lo].span == ts[i].span;
    assert lo + 1 < |vs| ==> vs[lo + 1] == ts[i + 1];
  }

  lemma FirstStep(ts: seq<Extent>, i: nat)
    requires i < |ts|
    ensures MeltLeft(ts[i := ts[i].(used := false)], i) == AfterLeft(ts, i)
  {
    var us := ts[i := ts[i].(used := false)];
    if MergesLeft(ts, i) {
      assert us[..i - 1] == ts[..i - 1] && us[i + 1..] == ts[i + 1..];
    } else {
      assert us == ts[..i] + [ts[i].(used := false)] + ts[i + 1..];
    }
  }

  lemma SecondStep(ts: seq<Extent>, i: nat)
    requires Tiled(ts) && i < |ts| && ts[i].used
    ensures FreeLow(ts, i) < |AfterLeft(ts, i)|
    ensures FreeAt(ts, i) == MeltRight(AfterLeft(ts, i), FreeLow(ts, i))
  {
    hide Tiled, MergesRight;
    var lo, vs := FreeLow(ts, i), AfterLeft(ts, i);
    RightAfterLeft(ts, i);
    assert vs[..lo] == ts[..lo];
    assert vs[lo + 1..] == ts[i + 1..];
    if MergesRight(ts, i) { RightExists(ts, i); assert vs[lo + 1] == ts[i + 1] && vs[lo + 2..] == ts[i + 2..]; }
  }

  lemma RightExists(ts: seq<Extent>, i: nat)
    requires i < |ts| && MergesRight(ts, i)
    ensures i + 1 < |ts|
  {
  }

  // Freeing in the order of the source gives FreeAt.
  lemma FreeInSteps(ts: seq<Extent>, i: nat)
    requires Tiled(ts) && i < |ts| && ts[i].used
    ensures MeltLeft(ts[i := ts[i].(used := false)], i) == AfterLeft(ts, i)
    ensures MergesLeft(ts[i := ts[i].(used := false)], i) <==> MergesLeft(ts, i)
    ensures FreeLow(ts, i) < |AfterLeft(ts, i)| && AfterLeft(ts, i)[FreeLow(ts, i)].span == ts[i].span
    ensures FreeAt(ts, i) == MeltRight(AfterLeft(ts, i), FreeLow(ts, i))
  {
    MergeTests(ts, i);
    FirstStep(ts, i);
    SecondStep(ts, i);
  }
}
