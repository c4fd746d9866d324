// The layout of a liballoc heap (kernel/mm/liballoc.c) as plain values: majors obtained from
// the page allocator, each cut up by the headers ("minors") of the blocks that live in it.
module LiballocLayout {
  import opened Options
  import opened PageSize

  const MAJOR_HEADER: nat := 24
  const MINOR_HEADER: nat := 24
  const PAGE_COUNT: nat := 16
  const ALIGNMENT: nat := 4
  const ALIGN_INFO: nat := 2

  // A block: its header at addr, then size bytes.
  datatype Minor = Minor(addr: nat, size: nat, reqSize: nat)

  datatype Major = Major(addr: nat, block: nat, pages: nat, usage: nat, minors: seq<Minor>) {
    function Size(): nat { pages * PAGE_SIZE }
    function Low(): nat { addr + MAJOR_HEADER }
    function High(): nat { addr + Size() }
  }

  function End(m: Minor): nat { m.addr + MINOR_HEADER + m.size }

  // Gap k lies before minor k; the last one is the tail of the major.
  function GapStart(lo: nat, ms: seq<Minor>, k: nat): nat
    requires k <= |ms|
  {
    if k == 0 then lo else End(ms[k - 1])
  }

  function GapEnd(hi: nat, ms: seq<Minor>, k: nat): nat
    requires k <= |ms|
  {
    if k == |ms| then hi else ms[k].addr
  }

  // Headers and payloads follow each other in address order inside [lo, hi).
  ghost predicate Ordered(lo: nat, ms: seq<Minor>, hi: nat) {
    forall k {:trigger GapStart(lo, ms, k)} :: 0 <= k <= |ms| ==> GapStart(lo, ms, k) <= GapEnd(hi, ms, k)
  }

  function Usage(ms: seq<Minor>): nat {
    if ms == [] then 0 else Usage(ms[..|ms| - 1]) + MINOR_HEADER + ms[|ms| - 1].size
  }

  function InUse(ms: seq<Minor>): nat {
    if ms == [] then 0 else InUse(ms[..|ms| - 1]) + ms[|ms| - 1].size
  }

  // ---- where a new block fits ----

  // The first gap, in address order from gap k on, that has need bytes.
  function FirstFit(lo: nat, ms: seq<Minor>, hi: nat, need: nat, k: nat): (r: Option<nat>)
    requires k <= |ms|
    ensures r != None ==> k <= r.value <= |ms|
    decreases |ms| - k
  {
    if GapStart(lo, ms, k) + need <= GapEnd(hi, ms, k) then Some(k)
    else if k == |ms| then None
    else FirstFit(lo, ms, hi, need, k + 1)
  }

  // [a, a + need) meets no header and no payload.
  ghost predicate Vacant(lo: nat, ms: seq<Minor>, hi: nat, a: nat, need: nat) {
    lo <= a && a + need <= hi && forall k :: 0 <= k < |ms| ==> a + need <= ms[k].addr || End(ms[k]) <= a
  }

  lemma {:induction false} OrderedApart(lo: nat, ms: seq<Minor>, hi: nat, i: nat, j: nat)
    requires Ordered(lo, ms, hi) && i < j < |ms|
    ensures End(ms[i]) <= ms[j].addr
    decreases j - i
  {
    assert GapStart(lo, ms, i + 1) <= GapEnd(hi, ms, i + 1);
    if i + 1 < j { OrderedApart(lo, ms, hi, i + 1, j); }
  }

  lemma {:induction false} OrderedInside(lo: nat, ms: seq<Minor>, hi: nat, i: nat)
    requires Ordered(lo, ms, hi) && i < |ms|
    ensures lo <= ms[i].addr && End(ms[i]) <= hi
  {
    assert GapStart(lo, ms, 0) <= GapEnd(hi, ms, 0);
    assert GapStart(lo, ms, |ms|) <= GapEnd(hi, ms, |ms|);
    if i > 0 { OrderedApart(lo, ms, hi, 0, i); }
    if i < |ms| - 1 { OrderedApart(lo, ms, hi, i, |ms| - 1); }
  }

  lemma {:induction false} FirstFitFits(lo: nat, ms: seq<Minor>, hi: nat, need: nat, k: nat)
    requires k <= |ms| && FirstFit(lo, ms, hi, need, k) != None
    ensures var r := FirstFit(lo, ms, hi, need, k).value; GapStart(lo, ms, r) + need <= GapEnd(hi, ms, r)
    decreases |ms| - k
  {
    if GapStart(lo, ms, k) + need > GapEnd(hi, ms, k) { FirstFitFits(lo, ms, hi, need, k + 1); }
  }

  // A vacant place that starts behind minor k - 1 keeps the search from failing.
  lemma {:induction false} FirstFitFinds(lo: nat, ms: seq<Minor>, hi: nat, need: nat, k: nat, a: nat)
    requires Ordered(lo, ms, hi) && need > 0 && k <= |ms| && Vacant(lo, ms, hi, a, need) && GapStart(lo, ms, k) <= a
    ensures FirstFit(lo, ms, hi, need, k) != None
    decreases |ms| - k
  {
    if k < |ms| && GapStart(lo, ms, k) + need > GapEnd(hi, ms, k) {
      FirstFitFinds(lo, ms, hi, need, k + 1, a);
    }
  }

  // The search fails exactly when no vacant place of that size exists.
  lemma FitIffVacant(lo: nat, ms: seq<Minor>, hi: nat, need: nat)
    requires Ordered(lo, ms, hi) && need > 0
    ensures FirstFit(lo, ms, hi, need, 0) != None <==> exists a :: Vacant(lo, ms, hi, a, need)
  {
    if a :| Vacant(lo, ms, hi, a, need) { FirstFitFinds(lo, ms, hi, need, 0, a); }
    if FirstFit(lo, ms, hi, need, 0) != None {
      var r := FirstFit(lo, ms, hi, need, 0).value;
      FirstFitFits(lo, ms, hi, need, 0);
      GapVacant(lo, ms, hi, need, r);
    }
  }

  lemma GapVacant(lo: nat, ms: seq<Minor>, hi: nat, need: nat, r: nat)
    requires Ordered(lo, ms, hi) && r <= |ms| && GapStart(lo, ms, r) + need <= GapEnd(hi, ms, r)
    ensures Vacant(lo, ms, hi, GapStart(lo, ms, r), need)
  {
    forall k | 0 <= k < |ms| ensures GapStart(lo, ms, r) + need <= ms[k].addr || End(ms[k]) <= GapStart(lo, ms, r) {
      if k < r - 1 { OrderedApart(lo, ms, hi, k, r - 1); }
      if k < r - 1 || k > r { OrderedInside(lo, ms, hi, k); }
      if k > r { OrderedApart(lo, ms, hi, r, k); }
    }
    if r > 0 { OrderedInside(lo, ms, hi, r - 1); }
    if r < |ms| { OrderedInside(lo, ms, hi, r); }
  }

  // ---- usage ----

  lemma {:induction false} PrefixUsage(lo: nat, ms: seq<Minor>, hi: nat, k: nat)
    requires Ordered(lo, ms, hi) && k <= |ms|
    ensures lo + Usage(ms[..k]) <= GapStart(lo, ms, k)
  {
    if k > 0 {
      PrefixUsage(lo, ms, hi, k - 1);
      assert GapStart(lo, ms, k - 1) <= GapEnd(hi, ms, k - 1);
      assert ms[..k][..k - 1] == ms[..k - 1];
    }
  }

  lemma {:induction false} RangeUsage(lo: nat, ms: seq<Minor>, hi: nat, k: nat, j: nat)
    requires Ordered(lo, ms, hi) && k < j <= |ms|
    ensures GapEnd(hi, ms, k) + Usage(ms[..j]) <= GapStart(lo, ms, j) + Usage(ms[..k])
    decreases j
  {
    assert ms[..j][..j - 1] == ms[..j - 1];
    if k < j - 1 {
      RangeUsage(lo, ms, hi, k, j - 1);
      assert GapStart(lo, ms, j - 1) <= GapEnd(hi, ms, j - 1);
    }
  }

  // No gap is larger than the free bytes of the major: what justifies skipping it in case 1.
  lemma GapWithinFree(lo: nat, ms: seq<Minor>, hi: nat, k: nat)
    requires Ordered(lo, ms, hi) && k <= |ms|
    ensures GapEnd(hi, ms, k) + Usage(ms) <= GapStart(lo, ms, k) + (hi - lo)
  {
    PrefixUsage(lo, ms, hi, k);
    assert ms[..|ms|] == ms;
    if k < |ms| {
      RangeUsage(lo, ms, hi, k, |ms|);
      assert GapStart(lo, ms, |ms|) <= GapEnd(hi, ms, |ms|);
    }
  }

  lemma {:induction false} NoRoomNoFit(lo: nat, ms: seq<Minor>, hi: nat, need: nat, k: nat)
    requires Ordered(lo, ms, hi) && lo <= hi && k <= |ms| && hi - lo < Usage(ms) + need
    ensures FirstFit(lo, ms, hi, need, k) == None
    decreases |ms| - k
  {
    GapWithinFree(lo, ms, hi, k);
    if k < |ms| { NoRoomNoFit(lo, ms, hi, need, k + 1); }
  }

  // ---- inserting and removing a minor ----

  function Insert(ms: seq<Minor>, k: nat, m: Minor): seq<Minor>
    requires k <= |ms|
  {
    ms[..k] + [m] + ms[k..]
  }

  function Remove(ms: seq<Minor>, k: nat): seq<Minor>
    requires k < |ms|
  {
    ms[..k] + ms[k + 1..]
  }

  lemma InsertOrdered(lo: nat, ms: seq<Minor>, hi: nat, k: nat, m: Minor)
    requires Ordered(lo, ms, hi) && k <= |ms| && GapStart(lo, ms, k) <= m.addr && End(m) <= GapEnd(hi, ms, k)
    ensures Ordered(lo, Insert(ms, k, m), hi)
  {
    var us := Insert(ms, k, m);
    forall j | 0 <= j <= |us| ensures GapStart(lo, us, j) <= GapEnd(hi, us, j) {
      if j < k { assert GapStart(lo, ms, j) <= GapEnd(hi, ms, j); }
      if j > k + 1 { assert GapStart(lo, ms, j - 1) <= GapEnd(hi, ms, j - 1); }
    }
  }

  lemma RemoveOrdered(lo: nat, ms: seq<Minor>, hi: nat, k: nat)
    requires Ordered(lo, ms, hi) && k < |ms|
    ensures Ordered(lo, Remove(ms, k), hi)
  {
    var us := Remove(ms, k);
    forall j | 0 <= j <= |us| ensures GapStart(lo, us, j) <= GapEnd(hi, us, j) {
      if j <= k { assert GapStart(lo, ms, j) <= GapEnd(hi, ms, j); }
      if j >= k { assert GapStart(lo, ms, j + 1) <= GapEnd(hi, ms, j + 1); }
    }
  }

  lemma {:induction false} UsageAppend(a: seq<Minor>, b: seq<Minor>)
    ensures Usage(a + b) == Usage(a) + Usage(b) && InUse(a + b) == InUse(a) + InUse(b)
  {
    if b == [] { assert a + b == a; } else {
      assert (a + b)[..|a + b| - 1] == a + b[..|b| - 1];
      UsageAppend(a, b[..|b| - 1]);
    }
  }

  lemma UsageOfOne(m: Minor)
    ensures Usage([m]) == MINOR_HEADER + m.size && InUse([m]) == m.size
  {
    assert [m][..0] == [];
  }

  lemma InsertUsage(ms: seq<Minor>, k: nat, m: Minor)
    requires k <= |ms|
    ensures Usage(Insert(ms, k, m)) == Usage(ms) + MINOR_HEADER + m.size
    ensures InUse(Insert(ms, k, m)) == InUse(ms) + m.size
  {
    UsageOfOne(m);
    hide Usage, InUse;
    assert ms == ms[..k] + ms[k..];
    UsageAppend(ms[..k], ms[k..]);
    UsageAppend(ms[..k] + [m], ms[k..]);
    UsageAppend(ms[..k], [m]);
  }

  lemma RemoveUsage(ms: seq<Minor>, k: nat)
    requires k < |ms|
    ensures Usage(Remove(ms, k)) + MINOR_HEADER + ms[k].size == Usage(ms) &&
              InUse(Remove(ms, k)) + ms[k].size == InUse(ms)
  {
    hide Usage, InUse;
    assert ms == Insert(Remove(ms, k), k, ms[k]);
    InsertUsage(Remove(ms, k), k, ms[k]);
  }
}
