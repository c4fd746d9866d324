// Whole liballoc heaps as values: a list of majors, the table of live headers, the totals.
module LiballocHeap {
  import opened LiballocLayout

  ghost predicate MajorOk(m: Major) {
    && m.Low() <= m.High() && Ordered(m.Low(), m.minors, m.High())
    && m.usage == MAJOR_HEADER + Usage(m.minors)
    && forall x :: x in m.minors ==> x.size >= x.reqSize + ALIGNMENT + ALIGN_INFO
  }

  predicate MajorsApart(a: Major, b: Major) { a.High() <= b.addr || b.High() <= a.addr }

  ghost predicate MajorsOk(ms: seq<Major>) {
    && (forall i :: 0 <= i < |ms| ==> MajorOk(ms[i]))
    && (forall i, j :: 0 <= i < j < |ms| ==> MajorsApart(ms[i], ms[j]))
  }

  function TotalSize(ms: seq<Major>): nat {
    if ms == [] then 0 else TotalSize(ms[..|ms| - 1]) + ms[|ms| - 1].Size()
  }

  function TotalInUse(ms: seq<Major>): nat {
    if ms == [] then 0 else TotalInUse(ms[..|ms| - 1]) + InUse(ms[|ms| - 1].minors)
  }

  // All live blocks.
  function Blocks(ms: seq<Major>): set<Minor> { set i, x | 0 <= i < |ms| && x in ms[i].minors :: x }

  function Addrs(s: set<Minor>): set<nat> { set x | x in s :: x.addr }

  // The header words of every live block say that it is live and which major it is in.
  ghost predicate HeadersOk(ms: seq<Major>, headers: map<nat, nat>) {
    headers.Keys == Addrs(Blocks(ms)) && forall i :: 0 <= i < |ms| ==> Homed(ms[i], headers)
  }

  ghost predicate Homed(m: Major, headers: map<nat, nat>) {
    forall x :: x in m.minors ==> x.addr in headers && headers[x.addr] == m.addr
  }

  lemma InBlocks(ms: seq<Major>, i: nat, x: Minor)
    requires i < |ms| && x in ms[i].minors
    ensures x in Blocks(ms)
  {
  }

  // ---- blocks never overlap ----

  lemma BlockInside(ms: seq<Major>, i: nat, x: Minor)
    requires MajorsOk(ms) && i < |ms| && x in ms[i].minors
    ensures ms[i].Low() <= x.addr && End(x) <= ms[i].High()
  {
    assert MajorOk(ms[i]);
    var k :| 0 <= k < |ms[i].minors| && ms[i].minors[k] == x;
    OrderedInside(ms[i].Low(), ms[i].minors, ms[i].High(), k);
  }

  // Majors share no address.
  lemma OneMajor(ms: seq<Major>, i: nat, j: nat, a: nat)
    requires MajorsOk(ms) && i < |ms| && j < |ms| && ms[i].Low() <= a < ms[i].High() && ms[j].Low() <= a < ms[j].High()
    ensures i == j
  {
    assert !(i < j) && !(j < i);
  }

  lemma BlocksApart(ms: seq<Major>, x: Minor, y: Minor)
    requires MajorsOk(ms) && x in Blocks(ms) && y in Blocks(ms) && x != y
    ensures End(x) <= y.addr || End(y) <= x.addr
  {
    var i :| 0 <= i < |ms| && x in ms[i].minors;
    var j :| 0 <= j < |ms| && y in ms[j].minors;
    BlockInside(ms, i, x);
    BlockInside(ms, j, y);
    if i == j {
      assert MajorOk(ms[i]);
      MinorsApart(ms[i], x, y);
    } else {
      assert MajorsApart(ms[if i < j then i else j], ms[if i < j then j else i]);
    }
  }

  lemma MinorsApart(m: Major, x: Minor, y: Minor)
    requires MajorOk(m) && x in m.minors && y in m.minors && x != y
    ensures End(x) <= y.addr || End(y) <= x.addr
  {
    var k :| 0 <= k < |m.minors| && m.minors[k] == x;
    var l :| 0 <= l < |m.minors| && m.minors[l] == y;
    if k < l { OrderedApart(m.Low(), m.minors, m.High(), k, l); }
    if l < k { OrderedApart(m.Low(), m.minors, m.High(), l, k); }
  }

  // ---- one major changes ----

  lemma {:induction false} TotalsUpdate(ms: seq<Major>, k: nat, m: Major)
    requires k < |ms|
    ensures TotalSize(ms[k := m]) + ms[k].Size() == TotalSize(ms) + m.Size()
    ensures TotalInUse(ms[k := m]) + InUse(ms[k].minors) == TotalInUse(ms) + InUse(m.minors)
  {
    var us := ms[k := m];
    if k < |ms| - 1 {
      TotalsUpdate(ms[..|ms| - 1], k, m);
      assert us[..|us| - 1] == ms[..|ms| - 1][k := m];
    } else {
      assert us[..|us| - 1] == ms[..|ms| - 1];
    }
  }

  lemma {:induction false} TotalsRemove(ms: seq<Major>, k: nat)
    requires k < |ms|
    ensures TotalSize(ms[..k] + ms[k + 1..]) + ms[k].Size() == TotalSize(ms)
    ensures TotalInUse(ms[..k] + ms[k + 1..]) + InUse(ms[k].minors) == TotalInUse(ms)
  {
    var us := ms[..k] + ms[k + 1..];
    if k < |ms| - 1 {
      TotalsRemove(ms[..|ms| - 1], k);
      assert us[..|us| - 1] == ms[..|ms| - 1][..k] + ms[..|ms| - 1][k + 1..];
    } else {
      assert us == ms[..|ms| - 1];
    }
  }

  // The major with a new block in gap g.
  function WithBlock(m: Major, g: nat, x: Minor): Major
    requires g <= |m.minors|
  {
    m.(minors := Insert(m.minors, g, x), usage := m.usage + x.size + MINOR_HEADER)
  }

  function WithoutBlock(m: Major, g: nat): Major
    requires g < |m.minors| && m.usage >= m.minors[g].size + MINOR_HEADER
  {
    m.(minors := Remove(m.minors, g), usage := m.usage - (m.minors[g].size + MINOR_HEADER))
  }

  ghost predicate FitsGap(m: Major, g: nat, x: Minor) {
    g <= |m.minors| && GapStart(m.Low(), m.minors, g) <= x.addr && End(x) <= GapEnd(m.High(), m.minors, g)
  }

  lemma AddBlock(ms: seq<Major>, k: nat, g: nat, x: Minor, headers: map<nat, nat>)
    requires MajorsOk(ms) && HeadersOk(ms, headers) && k < |ms| && FitsGap(ms[k], g, x)
    requires x.size >= x.reqSize + ALIGNMENT + ALIGN_INFO
    ensures var us := ms[k := WithBlock(ms[k], g, x)];
            && MajorsOk(us) && HeadersOk(us, headers[x.addr := ms[k].addr])
            && Blocks(us) == Blocks(ms) + {x} && x !in Blocks(ms)
            && TotalInUse(us) == TotalInUse(ms) + x.size && TotalSize(us) == TotalSize(ms)
  {
    var m := WithBlock(ms[k], g, x);
    assert MajorOk(ms[k]);
    AddOk(ms[k], g, x);
    MajorChanged(ms, k, m);
    InsertUsage(ms[k].minors, g, x);
    TotalsUpdate(ms, k, m);
    InsertMembers(ms[k].minors, g, x);
    AddedBlocks(ms, k, m, x);
    NewBlock(ms, k, g, x);
    hide MajorOk, MajorsOk, Insert, FitsGap;
    AddHeaders(ms, k, m, x, headers);
  }

  lemma AddOk(m: Major, g: nat, x: Minor)
    requires MajorOk(m) && FitsGap(m, g, x) && x.size >= x.reqSize + ALIGNMENT + ALIGN_INFO
    ensures MajorOk(WithBlock(m, g, x))
  {
    InsertOrdered(m.Low(), m.minors, m.High(), g, x);
    InsertUsage(m.minors, g, x);
    InsertMembers(m.minors, g, x);
  }

  lemma MajorChanged(ms: seq<Major>, k: nat, m: Major)
    requires MajorsOk(ms) && k < |ms| && MajorOk(m) && m.addr == ms[k].addr && m.pages == ms[k].pages
    ensures MajorsOk(ms[k := m])
  {
    var us := ms[k := m];
    forall i, j | 0 <= i < j < |us| ensures MajorsApart(us[i], us[j]) { assert MajorsApart(ms[i], ms[j]); }
    forall i | 0 <= i < |us| ensures MajorOk(us[i]) { assert MajorOk(ms[i]); }
  }

  lemma AddHeaders(ms: seq<Major>, k: nat, m: Major, x: Minor, headers: map<nat, nat>)
    requires k < |ms| && MajorsOk(ms[k := m]) && HeadersOk(ms, headers) && m.addr == ms[k].addr
    requires forall y :: y in m.minors <==> y in ms[k].minors || y == x
    requires Blocks(ms[k := m]) == Blocks(ms) + {x} && x !in Blocks(ms)
    ensures HeadersOk(ms[k := m], headers[x.addr := ms[k].addr])
  {
    hide MajorsOk, Blocks;
    var us, hs := ms[k := m], headers[x.addr := ms[k].addr];
    forall y | y in Blocks(ms) ensures y.addr != x.addr { BlocksApart(us, x, y); }
    forall i | 0 <= i < |us| ensures Homed(us[i], hs) {
      assert Homed(ms[i], headers);
      forall y | y in us[i].minors ensures y.addr in hs && hs[y.addr] == us[i].addr {
        InBlocks(us, i, y);
        if y == x { OneHome(us, i, k, x); } else { assert y in ms[i].minors; }
      }
    }
    assert Addrs(Blocks(ms) + {x}) == Addrs(Blocks(ms)) + {x.addr};
  }

  lemma OneHome(ms: seq<Major>, i: nat, j: nat, x: Minor)
    requires MajorsOk(ms) && i < |ms| && j < |ms| && x in ms[i].minors && x in ms[j].minors
    ensures i == j
  {
    BlockInside(ms, i, x);
    BlockInside(ms, j, x);
    OneMajor(ms, i, j, x.addr);
  }

  lemma InsertMembers(ms: seq<Minor>, g: nat, x: Minor)
    requires g <= |ms|
    ensures forall y :: y in Insert(ms, g, x) <==> y in ms || y == x
  {
    assert ms == ms[..g] + ms[g..];
  }

  lemma AddedBlocks(ms: seq<Major>, k: nat, m: Major, x: Minor)
    requires k < |ms| && forall y :: y in m.minors <==> y in ms[k].minors || y == x
    ensures Blocks(ms[k := m]) == Blocks(ms) + {x}
  {
    var us := ms[k := m];
    forall y ensures y in Blocks(us) <==> y in Blocks(ms) + {x} {
      if y in Blocks(us) { var i :| 0 <= i < |us| && y in us[i].minors; assert i != k ==> y in ms[i].minors; }
      if y in Blocks(ms) { var i :| 0 <= i < |ms| && y in ms[i].minors; assert y in us[i].minors; }
      assert x in us[k].minors;
    }
  }

  // What fits a gap is not there yet.
  lemma NewBlock(ms: seq<Major>, k: nat, g: nat, x: Minor)
    requires MajorsOk(ms) && k < |ms| && FitsGap(ms[k], g, x)
    ensures x !in Blocks(ms)
  {
    var m := ms[k];
    assert MajorOk(m);
    var a := GapStart(m.Low(), m.minors, g);
    GapVacant(m.Low(), m.minors, m.High(), GapEnd(m.High(), m.minors, g) - a, g);
    if x in Blocks(ms) {
      var i :| 0 <= i < |ms| && x in ms[i].minors;
      BlockInside(ms, i, x);
      OneMajor(ms, i, k, x.addr);
    }
  }

  // ---- a block is freed ----

  lemma DropOk(m: Major, g: nat)
    requires MajorOk(m) && g < |m.minors|
    ensures m.usage >= m.minors[g].size + MINOR_HEADER && MajorOk(WithoutBlock(m, g))
    ensures forall y :: y in WithoutBlock(m, g).minors <==> y in m.minors && y != m.minors[g]
  {
    RemoveUsage(m.minors, g);
    RemoveOrdered(m.Low(), m.minors, m.High(), g);
    RemoveMembers(m, g);
  }

  lemma DropBlock(ms: seq<Major>, k: nat, g: nat, headers: map<nat, nat>)
    requires MajorsOk(ms) && HeadersOk(ms, headers) && k < |ms| && g < |ms[k].minors|
    ensures var x := ms[k].minors[g];
            && ms[k].usage >= x.size + MINOR_HEADER
            && var us := ms[k := WithoutBlock(ms[k], g)];
            && MajorsOk(us) && HeadersOk(us, headers - {x.addr})
            && Blocks(us) == Blocks(ms) - {x} && x in Blocks(ms)
            && TotalInUse(us) + x.size == TotalInUse(ms) && TotalSize(us) == TotalSize(ms)
  {
    var x := ms[k].minors[g];
    assert MajorOk(ms[k]);
    DropOk(ms[k], g);
    var m := WithoutBlock(ms[k], g);
    MajorChanged(ms, k, m);
    RemoveUsage(ms[k].minors, g);
    TotalsUpdate(ms, k, m);
    RemovedBlocks(ms, k, m, x);
    hide MajorOk, MajorsOk, Remove;
    DropHeaders(ms, k, m, x, headers);
  }

  lemma DropHeaders(ms: seq<Major>, k: nat, m: Major, x: Minor, headers: map<nat, nat>)
    requires MajorsOk(ms) && HeadersOk(ms, headers) && k < |ms| && m.addr == ms[k].addr
    requires forall y :: y in m.minors <==> y in ms[k].minors && y != x
    requires Blocks(ms[k := m]) == Blocks(ms) - {x} && x in Blocks(ms)
    ensures HeadersOk(ms[k := m], headers - {x.addr})
  {
    hide MajorsOk, Blocks;
    var us, hs := ms[k := m], headers - {x.addr};
    forall y | y in Blocks(ms) && y != x ensures y.addr != x.addr { BlocksApart(ms, x, y); }
    forall i | 0 <= i < |us| ensures Homed(us[i], hs) {
      assert Homed(ms[i], headers);
      forall y | y in us[i].minors ensures y.addr in hs && hs[y.addr] == us[i].addr {
        InBlocks(us, i, y);
        assert y in ms[i].minors;
      }
    }
    AddrsWithout(Blocks(ms), x);
  }

  lemma AddrsWithout(s: set<Minor>, x: Minor)
    requires x in s && forall y :: y in s && y != x ==> y.addr != x.addr
    ensures Addrs(s - {x}) == Addrs(s) - {x.addr}
  {
    forall a | a in Addrs(s) - {x.addr} ensures a in Addrs(s - {x}) {
      var y :| y in s && y.addr == a;
      assert y in s - {x};
    }
  }

  lemma RemoveMembers(m: Major, g: nat)
    requires MajorOk(m) && g < |m.minors|
    ensures forall y :: y in Remove(m.minors, g) <==> y in m.minors && y != m.minors[g]
  {
    var ms := m.minors;
    assert ms == ms[..g] + [ms[g]] + ms[g + 1..];
    forall j | 0 <= j < |ms| && j != g ensures ms[j] != ms[g] {
      if j < g { OrderedApart(m.Low(), ms, m.High(), j, g); } else { OrderedApart(m.Low(), ms, m.High(), g, j); }
    }
  }

  lemma RemovedBlocks(ms: seq<Major>, k: nat, m: Major, x: Minor)
    requires MajorsOk(ms) && k < |ms| && x in ms[k].minors && forall y :: y in m.minors <==> y in ms[k].minors && y != x
    ensures Blocks(ms[k := m]) == Blocks(ms) - {x} && x in Blocks(ms)
  {
    var us := ms[k := m];
    forall y ensures y in Blocks(us) <==> y in Blocks(ms) - {x} {
      if y in Blocks(us) {
        var i :| 0 <= i < |us| && y in us[i].minors;
        assert y in ms[i].minors;
        if y == x { OneHome(ms, i, k, x); }
      }
      if y in Blocks(ms) && y != x { var i :| 0 <= i < |ms| && y in ms[i].minors; assert y in us[i].minors; }
    }
  }

  // ---- majors come and go ----

  lemma DropEmpty(ms: seq<Major>, k: nat, headers: map<nat, nat>)
    requires MajorsOk(ms) && HeadersOk(ms, headers) && k < |ms| && ms[k].minors == []
    ensures var us := ms[..k] + ms[k + 1..];
            && MajorsOk(us) && HeadersOk(us, headers) && Blocks(us) == Blocks(ms)
            && TotalInUse(us) == TotalInUse(ms) && TotalSize(us) + ms[k].Size() == TotalSize(ms)
  {
    hide MajorOk, Blocks, Homed;
    var us := ms[..k] + ms[k + 1..];
    TotalsRemove(ms, k);
    DropEmptyBlocks(ms, k);
    forall i | 0 <= i < |us| ensures MajorOk(us[i]) && Homed(us[i], headers) {
      assert us[i] == ms[if i < k then i else i + 1];
    }
    forall i, j | 0 <= i < j < |us| ensures MajorsApart(us[i], us[j]) {
      assert us[i] == ms[if i < k then i else i + 1] && us[j] == ms[if j < k then j else j + 1];
    }
  }

  lemma DropEmptyBlocks(ms: seq<Major>, k: nat)
    requires k < |ms| && ms[k].minors == []
    ensures Blocks(ms[..k] + ms[k + 1..]) == Blocks(ms)
  {
    var us := ms[..k] + ms[k + 1..];
    forall y ensures y in Blocks(us) <==> y in Blocks(ms) {
      if y in Blocks(us) {
        var i :| 0 <= i < |us| && y in us[i].minors;
        assert y in ms[if i < k then i else i + 1].minors;
      }
      if y in Blocks(ms) {
        var i :| 0 <= i < |ms| && y in ms[i].minors;
        assert y in us[if i < k then i else i - 1].minors;
      }
    }
  }

  lemma AppendEmptyBlocks(ms: seq<Major>, m: Major)
    requires m.minors == []
    ensures Blocks(ms + [m]) == Blocks(ms)
    ensures TotalInUse(ms + [m]) == TotalInUse(ms) && TotalSize(ms + [m]) == TotalSize(ms) + m.Size()
  {
    var us := ms + [m];
    assert us[..|us| - 1] == ms;
    assert us[..|ms|] + us[|ms| + 1..] == ms;
    DropEmptyBlocks(us, |ms|);
  }

  lemma AddEmpty(ms: seq<Major>, m: Major, headers: map<nat, nat>)
    requires MajorsOk(ms) && HeadersOk(ms, headers) && MajorOk(m) && m.minors == []
    requires forall i :: 0 <= i < |ms| ==> MajorsApart(ms[i], m)
    ensures MajorsOk(ms + [m]) && HeadersOk(ms + [m], headers)
  {
    assert Homed(m, headers);
    hide MajorOk, MajorsApart, Blocks, Homed, TotalSize, TotalInUse;
    var us := ms + [m];
    AppendEmptyBlocks(ms, m);
    forall i | 0 <= i < |us| ensures MajorOk(us[i]) && Homed(us[i], headers) {
      if i < |ms| { assert us[i] == ms[i]; }
    }
    forall i, j | 0 <= i < j < |us| ensures MajorsApart(us[i], us[j]) {
      assert us[i] == ms[i];
      if j < |ms| { assert us[j] == ms[j]; }
    }
  }

  // ---- the requested size of a block goes down ----

  lemma {:induction false} SameUsage(ms: seq<Minor>, g: nat, x: Minor)
    requires g < |ms| && x.size == ms[g].size
    ensures Usage(ms[g := x]) == Usage(ms) && InUse(ms[g := x]) == InUse(ms)
  {
    assert ms[g := x] == Insert(Remove(ms, g), g, x);
    assert ms == Insert(Remove(ms, g), g, ms[g]);
    InsertUsage(Remove(ms, g), g, x);
    InsertUsage(Remove(ms, g), g, ms[g]);
  }

  lemma ResizedMajor(m: Major, g: nat, size: nat)
    requires MajorOk(m) && g < |m.minors| && size <= m.minors[g].reqSize
    ensures MajorOk(m.(minors := m.minors[g := m.minors[g].(reqSize := size)]))
    ensures forall y :: y in m.minors[g := m.minors[g].(reqSize := size)] <==>
              (y in m.minors && y != m.minors[g]) || y == m.minors[g].(reqSize := size)
  {
    var ms, x := m.minors, m.minors[g].(reqSize := size);
    var us := ms[g := x];
    SameUsage(ms, g, x);
    forall k | 0 <= k <= |us| ensures GapStart(m.Low(), us, k) <= GapEnd(m.High(), us, k) {
      assert GapStart(m.Low(), ms, k) <= GapEnd(m.High(), ms, k);
    }
    RemoveMembers(m, g);
    assert us == Insert(Remove(ms, g), g, x);
    InsertMembers(Remove(ms, g), g, x);
  }

  lemma Resized(ms: seq<Major>, k: nat, g: nat, size: nat, headers: map<nat, nat>)
    requires MajorsOk(ms) && HeadersOk(ms, headers) && k < |ms| && g < |ms[k].minors| && size <= ms[k].minors[g].reqSize
    ensures var x := ms[k].minors[g];
            var us := ms[k := ms[k].(minors := ms[k].minors[g := x.(reqSize := size)])];
            && MajorsOk(us) && HeadersOk(us, headers) && Blocks(us) == Blocks(ms) - {x} + {x.(reqSize := size)}
            && TotalInUse(us) == TotalInUse(ms) && TotalSize(us) == TotalSize(ms)
  {
    var x := ms[k].minors[g];
    var m := ms[k].(minors := ms[k].minors[g := x.(reqSize := size)]);
    assert MajorOk(ms[k]) && Homed(ms[k], headers);
    ResizedMajor(ms[k], g, size);
    hide MajorOk, Blocks;
    MajorChanged(ms, k, m);
    SameUsage(ms[k].minors, g, x.(reqSize := size));
    TotalsUpdate(ms, k, m);
    ResizedBlocks(ms, k, m, x, x.(reqSize := size));
    ResizedHeaders(ms, k, m, x, x.(reqSize := size), headers);
  }

  lemma ResizedHeaders(ms: seq<Major>, k: nat, m: Major, x: Minor, z: Minor, headers: map<nat, nat>)
    requires HeadersOk(ms, headers) && k < |ms| && x in Blocks(ms) && x in ms[k].minors && z.addr == x.addr &&
              m.addr == ms[k].addr
    requires forall y :: y in m.minors <==> (y in ms[k].minors && y != x) || y == z
    requires Blocks(ms[k := m]) == Blocks(ms) - {x} + {z}
    ensures HeadersOk(ms[k := m], headers)
  {
    hide Blocks;
    var us := ms[k := m];
    assert Homed(ms[k], headers);
    forall i | 0 <= i < |us| ensures Homed(us[i], headers) { assert Homed(ms[i], headers); }
    SameAddrs(Blocks(ms), x, z);
  }

  lemma SameAddrs(s: set<Minor>, x: Minor, y: Minor)
    requires x in s && x.addr == y.addr
    ensures Addrs(s - {x} + {y}) == Addrs(s)
  {
    var t := s - {x} + {y};
    forall a | a in Addrs(s) ensures a in Addrs(t) {
      var z :| z in s && z.addr == a;
      assert (if z == x then y else z) in t;
    }
  }

  lemma ResizedBlocks(ms: seq<Major>, k: nat, m: Major, x: Minor, z: Minor)
    requires MajorsOk(ms) && k < |ms| && x in ms[k].minors
    requires forall y :: y in m.minors <==> (y in ms[k].minors && y != x) || y == z
    ensures Blocks(ms[k := m]) == Blocks(ms) - {x} + {z} && x in Blocks(ms)
  {
    var us := ms[k := m];
    forall y ensures y in Blocks(us) <==> y in Blocks(ms) - {x} + {z} {
      if y in Blocks(us) && y != z {
        var i :| 0 <= i < |us| && y in us[i].minors;
        assert y in ms[i].minors;
        if y == x { OneHome(ms, i, k, x); }
      }
      if y in Blocks(ms) && y != x { var i :| 0 <= i < |ms| && y in ms[i].minors; assert y in us[i].minors; }
      assert z in us[k].minors;
    }
  }
}
