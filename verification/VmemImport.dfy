// An arena that imports from a source (kernel/mm/vmem.c): each of its tags remembers, in source_addr, what
// it holds of the other arena. On values; Vmem.dfy has the tags of one arena.
module VmemImport {
  import opened Extents
  import opened ExtentRuns
  import Multiples

  // `from` gives the tag of the source that an allocated tag of the arena holds. `others` are the tags of
  // the source that its other callers hold. The quanta are q in the arena and p in the source.
  datatype State = State(tags: seq<Extent>, source: seq<Extent>, from: map<Extent, Extent>, others: set<Extent>)

  datatype Step =
    | Import(i: nat, n: nat, j: nat)   // vmem_alloc cuts n from tag i; the source cuts from its tag j
    | Refused(i: nat, n: nat)          // the source has no tag that fits
    | Release(i: nat, k: nat)          // vmem_free of tag i; the source finds its tag k
    | Grow(r: Range)                   // vmem_add to the arena, and to the source
    | GrowSource(r: Range)
    | Take(j: nat, n: nat)             // another caller of the source
    | Return(k: nat)

  const EMPTY := State([], [], map[], {})

  // vmem_free looks a tag up by the quantum of its address.
  predicate Named(e: Extent, a: nat, p: nat) { e.used && e.addr <= a < e.addr + p }

  predicate Enabled(s: State, step: Step, q: nat, p: nat)
    requires q > 0 && p > 0
  {
    match step
    case Import(i, n, j) =>
      && ExtentRuns.Enabled(s.tags, Alloc(i, n), q)
      && ExtentRuns.Enabled(s.source, Alloc(j, Multiples.RoundUp(n, p)), p)
    case Refused(i, n) =>
      && ExtentRuns.Enabled(s.tags, Alloc(i, n), q)
      && forall j :: 0 <= j < |s.source| ==> !Fit(s.source[j], Multiples.RoundUp(n, p))
    case Release(i, k) =>
      && i < |s.tags| && s.tags[i].used && s.tags[i] in s.from
      && k < |s.source| && Named(s.source[k], s.from[s.tags[i]].addr, p)
    case Grow(r) => ExtentRuns.Enabled(s.tags, Add(r), q)
    case GrowSource(r) => ExtentRuns.Enabled(s.source, Add(r), p)
    case Take(j, n) => ExtentRuns.Enabled(s.source, Alloc(j, n), p)
    case Return(k) => k < |s.source| && s.source[k].used && s.source[k] in s.others
  }

  // What vmem_alloc cut off is freed again.
  function GivenBack(tags: seq<Extent>, i: nat, n: nat): seq<Extent>
    requires i < |tags| && 0 < n <= tags[i].size
  {
    FreeAt(AllocAt(tags, i, n), i + |Cut(tags[i], n)| - 1)
  }

  // The source hands out address 0.
  predicate GetsNull(s: State, step: Step, q: nat, p: nat)
    requires q > 0 && p > 0 && Enabled(s, step, q, p)
  {
    step.Import? && Taken(s.source[step.j], Multiples.RoundUp(step.n, p)).addr == 0
  }

  function Apply(s: State, step: Step, q: nat, p: nat): State
    requires q > 0 && p > 0 && Enabled(s, step, q, p)
  {
    match step
    case Import(i, n, j) =>
      var m := Multiples.RoundUp(n, p);
      var source := AllocAt(s.source, j, m);
      // NULL is address 0: vmem_alloc takes it for a refusal
      if GetsNull(s, step, q, p) then s.(tags := GivenBack(s.tags, i, n), source := source)
      else
        s.(tags := AllocAt(s.tags, i, n), source := source,
           from := s.from[Taken(s.tags[i], n) := Taken(s.source[j], m)])
    case Refused(i, n) => s.(tags := GivenBack(s.tags, i, n))
    case Release(i, k) =>
      s.(tags := FreeAt(s.tags, i), source := FreeAt(s.source, k), from := s.from - {s.tags[i]})
    case Grow(r) => s.(tags := AddAt(s.tags, r))
    case GrowSource(r) => s.(source := AddAt(s.source, r))
    case Take(j, n) => s.(source := AllocAt(s.source, j, n), others := s.others + {Taken(s.source[j], n)})
    case Return(k) => s.(source := FreeAt(s.source, k), others := s.others - {s.source[k]})
  }

  function Run(s: State, steps: seq<Step>, q: nat, p: nat): State
    requires q > 0 && p > 0
    decreases |steps|
  {
    if steps == [] then s
    else Run(if Enabled(s, steps[0], q, p) then Apply(s, steps[0], q, p) else s, steps[1..], q, p)
  }

  // ---- Every allocated tag holds one allocation of the source ----

  ghost predicate Kept(ts: seq<Extent>, q: nat)
    requires q > 0
  {
    Tiled(ts) && Quantized(ts, q)
  }

  // Each allocated tag holds an allocation of the source, large enough, that no other tag and no other
  // caller holds.
  ghost predicate Paired(s: State, p: nat)
    requires p > 0
  {
    && s.from.Keys == UsedSet(s.tags) && s.others <= UsedSet(s.source)
    && (forall e :: e in s.from ==>
          && s.from[e] in UsedSet(s.source) && s.from[e] !in s.others
          && s.from[e].size == Multiples.RoundUp(e.size, p))
    && (forall e, f :: e in s.from && f in s.from && e != f ==> s.from[e] != s.from[f])
  }

  // What nobody holds.
  ghost function Lost(s: State): set<Extent> {
    UsedSet(s.source) - s.others - s.from.Values
  }

  ghost predicate Good(s: State, q: nat, p: nat)
    requires q > 0 && p > 0
  {
    Kept(s.tags, q) && Kept(s.source, p) && Paired(s, p)
  }

  lemma AllocKept(ts: seq<Extent>, i: nat, n: nat, q: nat)
    requires q > 0 && Kept(ts, q) && ExtentRuns.Enabled(ts, Alloc(i, n), q)
    ensures Kept(AllocAt(ts, i, n), q) && UsedSet(AllocAt(ts, i, n)) == UsedSet(ts) + {Taken(ts[i], n)}
    ensures Taken(ts[i], n) !in UsedSet(ts) && Spans(AllocAt(ts, i, n)) == Spans(ts)
  {
    AllocKeeps(ts, i, n);
    AllocQuantized(ts, i, n, q);
  }

  lemma FreeKept(ts: seq<Extent>, i: nat, q: nat)
    requires q > 0 && Kept(ts, q) && i < |ts| && ts[i].used
    ensures Kept(FreeAt(ts, i), q) && UsedSet(FreeAt(ts, i)) == UsedSet(ts) - {ts[i]} && ts[i] in UsedSet(ts)
    ensures Spans(FreeAt(ts, i)) == Spans(ts)
  {
    FreeKeeps(ts, i);
    FreeQuantized(ts, i, q);
  }

  lemma AddKept(ts: seq<Extent>, r: Range, q: nat)
    requires q > 0 && Kept(ts, q) && ExtentRuns.Enabled(ts, Add(r), q)
    ensures Kept(AddAt(ts, r), q) && UsedSet(AddAt(ts, r)) == UsedSet(ts) && Spans(AddAt(ts, r)) == Spans(ts) + {r}
  {
    AddKeeps(ts, r);
    AddQuantized(ts, r, q);
  }

  // A failed import leaves the arena as it was.
  lemma GivenBackIsNothing(ts: seq<Extent>, i: nat, n: nat, q: nat)
    requires q > 0 && Kept(ts, q) && ExtentRuns.Enabled(ts, Alloc(i, n), q)
    ensures GivenBack(ts, i, n) == ts
  {
    AllocFree(ts, i, n, i + |Cut(ts[i], n)| - 1);
  }

  // The source refuses exactly what it can cut from none of its tags.
  lemma RefusedExactly(s: State, i: nat, n: nat, q: nat, p: nat)
    requires q > 0 && p > 0 && ExtentRuns.Enabled(s.tags, Alloc(i, n), q)
    ensures Enabled(s, Refused(i, n), q, p) <==> forall j: nat :: !Enabled(s, Import(i, n, j), q, p)
  {
    Multiples.RoundUpIsMultiple(n, p);
    if forall j: nat :: !Enabled(s, Import(i, n, j), q, p) {
      forall j | 0 <= j < |s.source| ensures !Fit(s.source[j], Multiples.RoundUp(n, p)) {
        assert !Enabled(s, Import(i, n, j), q, p);
      }
    }
  }

  // By the address that a tag remembers, vmem_free finds an allocation of the source: the one it holds.
  lemma FindsIts(s: State, e: Extent, q: nat, p: nat)
    requires q > 0 && p > 0 && Good(s, q, p) && e in s.from
    ensures exists k :: 0 <= k < |s.source| && Named(s.source[k], s.from[e].addr, p)
    ensures forall k :: 0 <= k < |s.source| && Named(s.source[k], s.from[e].addr, p) ==> s.source[k] == s.from[e]
  {
    var a := s.from[e];
    var i :| 0 <= i < |s.source| && s.source[i] == a;
    assert Inside(s.source[i]) && OnQuantum(s.source[i], p);
    assert Named(s.source[i], a.addr, p);
    forall k | 0 <= k < |s.source| && Named(s.source[k], a.addr, p) ensures s.source[k] == a {
      assert Inside(s.source[k]) && OnQuantum(s.source[k], p);
      SlotOfAddress(s.source[k], s.source[k].addr, p);
      Same(s.source, i, k, a.addr);
    }
  }

  // A tag of the arena and one of the source become a pair.
  lemma Pairs(s: State, s': State, t: Extent, a: Extent, p: nat)
    requires p > 0 && Paired(s, p) && t !in UsedSet(s.tags) && a !in UsedSet(s.source)
    requires a.size == Multiples.RoundUp(t.size, p) && s'.from == s.from[t := a] && s'.others == s.others
    requires UsedSet(s'.tags) == UsedSet(s.tags) + {t} && UsedSet(s'.source) == UsedSet(s.source) + {a}
    ensures Paired(s', p) && Lost(s') == Lost(s)
  {
    hide UsedSet, Multiples.RoundUp;
    assert s'.from.Values == s.from.Values + {a} by {
      assert forall e :: e in s.from ==> s'.from[e] == s.from[e];
      assert s'.from[t] == a;
    }
  }

  // The source is left with an allocation that nobody holds.
  lemma Loses(s: State, s': State, a: Extent, p: nat)
    requires p > 0 && Paired(s, p) && a !in UsedSet(s.source) && s'.tags == s.tags
    requires s'.from == s.from && s'.others == s.others && UsedSet(s'.source) == UsedSet(s.source) + {a}
    ensures Paired(s', p) && Lost(s) <= Lost(s') != Lost(s)
  {
    hide UsedSet, Multiples.RoundUp;
    assert a !in s.from.Values;
    assert a !in Lost(s) && a in Lost(s');
  }

  // A pair goes.
  lemma Parts(s: State, s': State, t: Extent, p: nat)
    requires p > 0 && Paired(s, p) && t in s.from && s'.from == s.from - {t} && s'.others == s.others
    requires UsedSet(s'.tags) == UsedSet(s.tags) - {t} && UsedSet(s'.source) == UsedSet(s.source) - {s.from[t]}
    ensures Paired(s', p) && Lost(s') == Lost(s)
  {
    hide UsedSet, Multiples.RoundUp;
    assert s'.from.Values == s.from.Values - {s.from[t]} by {
      assert forall e :: e in s'.from ==> s'.from[e] == s.from[e];
      forall a | a in s.from.Values && a != s.from[t] ensures a in s'.from.Values {
        var e :| e in s.from && s.from[e] == a;
        assert s'.from[e] == a;
      }
    }
  }

  lemma ImportKeeps(s: State, i: nat, n: nat, j: nat, q: nat, p: nat)
    requires q > 0 && p > 0 && Good(s, q, p) && Enabled(s, Import(i, n, j), q, p)
    ensures var s' := Apply(s, Import(i, n, j), q, p);
            && Good(s', q, p) && Lost(s) <= Lost(s')
            && (Lost(s') == Lost(s) <==> !GetsNull(s, Import(i, n, j), q, p))
  {
    var m := Multiples.RoundUp(n, p);
    var s' := Apply(s, Import(i, n, j), q, p);
    var t, a := Taken(s.tags[i], n), Taken(s.source[j], m);
    hide Kept, UsedSet, AllocAt, GivenBack, ExtentRuns.Enabled;
    AllocKept(s.tags, i, n, q);
    AllocKept(s.source, j, m, p);
    GivenBackIsNothing(s.tags, i, n, q);
    if GetsNull(s, Import(i, n, j), q, p) {
      Loses(s, s', a, p);
    } else {
      Pairs(s, s', t, a, p);
    }
    hide Paired, Lost;
  }

  lemma ReleaseKeeps(s: State, i: nat, k: nat, q: nat, p: nat)
    requires q > 0 && p > 0 && Good(s, q, p) && Enabled(s, Release(i, k), q, p)
    ensures var s' := Apply(s, Release(i, k), q, p);
            Good(s', q, p) && Lost(s') == Lost(s) && s.source[k] == s.from[s.tags[i]]
  {
    FindsIts(s, s.tags[i], q, p);
    FreeKept(s.tags, i, q);
    FreeKept(s.source, k, p);
    hide Kept, UsedSet, FreeAt;
    Parts(s, Apply(s, Release(i, k), q, p), s.tags[i], p);
    hide Paired, Lost;
  }

  // The other callers of the source.
  lemma OthersKeep(s: State, step: Step, q: nat, p: nat)
    requires q > 0 && p > 0 && Good(s, q, p) && Enabled(s, step, q, p) && (step.Take? || step.Return?)
    ensures Good(Apply(s, step, q, p), q, p) && Lost(Apply(s, step, q, p)) == Lost(s)
  {
    hide Kept, UsedSet, AllocAt, FreeAt, ExtentRuns.Enabled;
    match step
    case Take(j, n) => AllocKept(s.source, j, n, p);
    case Return(k) => FreeKept(s.source, k, p);
  }

  lemma StepKeeps(s: State, step: Step, q: nat, p: nat)
    requires q > 0 && p > 0 && Good(s, q, p) && Enabled(s, step, q, p)
    ensures var s' := Apply(s, step, q, p);
            && Good(s', q, p) && Lost(s) <= Lost(s') && (Lost(s') == Lost(s) <==> !GetsNull(s, step, q, p))
  {
    hide Kept, UsedSet, AllocAt, AddAt, FreeAt, GivenBack, ExtentRuns.Enabled;
    match step
    case Import(i, n, j) => ImportKeeps(s, i, n, j, q, p);
    case Refused(i, n) => GivenBackIsNothing(s.tags, i, n, q);
    case Release(i, k) => ReleaseKeeps(s, i, k, q, p);
    case Grow(r) => AddKept(s.tags, r, q);
    case GrowSource(r) => AddKept(s.source, r, p);
    case _ => OthersKeep(s, step, q, p);
  }

  // Some import of the run is handed address 0.
  predicate GotNull(s: State, steps: seq<Step>, q: nat, p: nat)
    requires q > 0 && p > 0
    decreases |steps|
  {
    steps != [] &&
    if Enabled(s, steps[0], q, p)
    then GetsNull(s, steps[0], q, p) || GotNull(Apply(s, steps[0], q, p), steps[1..], q, p)
    else GotNull(s, steps[1..], q, p)
  }

  lemma {:induction false} RunKeeps(s: State, steps: seq<Step>, q: nat, p: nat)
    requires q > 0 && p > 0 && Good(s, q, p)
    ensures Good(Run(s, steps, q, p), q, p) && Lost(s) <= Lost(Run(s, steps, q, p))
    ensures Lost(Run(s, steps, q, p)) == Lost(s) <==> !GotNull(s, steps, q, p)
    decreases |steps|
  {
    hide Good, Apply, Enabled, Lost;
    if steps != [] {
      if Enabled(s, steps[0], q, p) {
        StepKeeps(s, steps[0], q, p);
        RunKeeps(Apply(s, steps[0], q, p), steps[1..], q, p);
      } else {
        RunKeeps(s, steps[1..], q, p);
      }
    }
  }

  lemma NothingLost(s: State, p: nat)
    requires p > 0 && Paired(s, p)
    ensures Lost(s) == {} <==> UsedSet(s.source) == s.others + s.from.Values
  {
    hide UsedSet;
    var held := s.others + s.from.Values;
    assert Lost(s) == UsedSet(s.source) - held;
    forall a | a in s.from.Values ensures a in UsedSet(s.source) {
      var e :| e in s.from && s.from[e] == a;
    }
    if Lost(s) == {} {
      forall a | a in UsedSet(s.source) ensures a in held {
        assert a !in Lost(s);
      }
    }
  }

  // Over every run: each allocated tag holds an allocation of the source of its own, large enough. All the
  // source has allocated is held by a tag or by another caller, exactly when no import was handed address 0.
  lemma EveryRun(steps: seq<Step>, q: nat, p: nat)
    requires q > 0 && p > 0
    ensures var s := Run(EMPTY, steps, q, p);
            Paired(s, p) && (UsedSet(s.source) == s.others + s.from.Values <==> !GotNull(EMPTY, steps, q, p))
  {
    assert Good(EMPTY, q, p) && Lost(EMPTY) == {};
    hide Lost, Paired, Run, GotNull;
    RunKeeps(EMPTY, steps, q, p);
    NothingLost(Run(EMPTY, steps, q, p), p);
  }

  ghost predicate AboveZero(ts: seq<Extent>) {
    forall r :: r in Spans(ts) ==> r.addr > 0
  }

  lemma StepAboveZero(s: State, step: Step, q: nat, p: nat)
    requires q > 0 && p > 0 && Good(s, q, p) && Enabled(s, step, q, p) && AboveZero(s.source)
    requires step.GrowSource? ==> step.r.addr > 0
    ensures AboveZero(Apply(s, step, q, p).source) && !GetsNull(s, step, q, p)
  {
    hide Kept, UsedSet, Spans, AllocAt, AddAt, FreeAt, GivenBack, ExtentRuns.Enabled;
    match step
    case Import(i, n, j) =>
      AllocKept(s.source, j, Multiples.RoundUp(n, p), p);
      TakenInside(s.source, j, Multiples.RoundUp(n, p), p);
    case Release(i, k) => FreeKept(s.source, k, p);
    case GrowSource(r) => AddKept(s.source, r, p);
    case Take(j, n) => AllocKept(s.source, j, n, p);
    case Return(k) => FreeKept(s.source, k, p);
    case _ =>
  }

  lemma TakenInside(ts: seq<Extent>, j: nat, n: nat, p: nat)
    requires p > 0 && Kept(ts, p) && ExtentRuns.Enabled(ts, Alloc(j, n), p)
    ensures ts[j].span in Spans(ts) && ts[j].span.addr <= Taken(ts[j], n).addr
  {
    assert Inside(ts[j]) && ts[j] in ts;
  }

  lemma {:induction false} RunAboveZero(s: State, steps: seq<Step>, q: nat, p: nat)
    requires q > 0 && p > 0 && Good(s, q, p) && AboveZero(s.source)
    requires forall step :: step in steps && step.GrowSource? ==> step.r.addr > 0
    ensures !GotNull(s, steps, q, p)
    decreases |steps|
  {
    hide Good, Apply, Enabled, AboveZero, GetsNull;
    if steps != [] {
      assert steps[0] in steps && forall step :: step in steps[1..] ==> step in steps;
      if Enabled(s, steps[0], q, p) {
        StepKeeps(s, steps[0], q, p);
        StepAboveZero(s, steps[0], q, p);
        RunAboveZero(Apply(s, steps[0], q, p), steps[1..], q, p);
      } else {
        RunAboveZero(s, steps[1..], q, p);
      }
    }
  }

  // With no span of the source at address 0, nothing is ever lost.
  lemma NothingLostAboveZero(steps: seq<Step>, q: nat, p: nat)
    requires q > 0 && p > 0 && forall step :: step in steps && step.GrowSource? ==> step.r.addr > 0
    ensures var s := Run(EMPTY, steps, q, p); UsedSet(s.source) == s.others + s.from.Values
  {
    assert Good(EMPTY, q, p) && AboveZero(EMPTY.source);
    RunAboveZero(EMPTY, steps, q, p);
    EveryRun(steps, q, p);
  }

  // A source with a span at address 0, and one import.
  const FROM_ZERO := [Grow(Range(8, 8)), GrowSource(Range(0, 8)), Import(0, 8, 0)]

  lemma NullIsLost()
    ensures GotNull(EMPTY, FROM_ZERO, 8, 8)
  {
    var tag, source := Whole(Range(8, 8)), Whole(Range(0, 8));
    var s1 := State([tag], [], map[], {});
    assert Apply(EMPTY, FROM_ZERO[0], 8, 8) == s1;
    var s2 := State([tag], [source], map[], {});
    assert Apply(s1, FROM_ZERO[1], 8, 8) == s2;
    assert Multiples.RoundUp(8, 8) == 8;
    assert GetsNull(s2, FROM_ZERO[2], 8, 8);
    hide Apply, Enabled, GetsNull;
    assert GotNull(s2, FROM_ZERO[1..][1..], 8, 8);
    assert GotNull(s1, FROM_ZERO[1..], 8, 8);
  }

  // When the arena has freed all, the source is as if it had never imported: it has the tags of any run
  // that leaves the same spans and the allocations of the others.
  lemma LeavesNoTrace(steps: seq<Step>, ops: seq<Op>, q: nat, p: nat)
    requires q > 0 && p > 0 && UsedSet(Run(EMPTY, steps, q, p).tags) == {} && !GotNull(EMPTY, steps, q, p)
    requires CanRun([], ops, p)
    requires Spans(ExtentRuns.Run([], ops, p)) == Spans(Run(EMPTY, steps, q, p).source)
    requires UsedSet(ExtentRuns.Run([], ops, p)) == Run(EMPTY, steps, q, p).others
    ensures Run(EMPTY, steps, q, p).source == ExtentRuns.Run([], ops, p)
  {
    var s := Run(EMPTY, steps, q, p);
    hide Run, GotNull;
    assert Good(EMPTY, q, p);
    RunKeeps(EMPTY, steps, q, p);
    EveryRun(steps, q, p);
    RunsKeepTiling([], ops, p);
    assert s.from.Values == {};
    Canonical(s.source, ExtentRuns.Run([], ops, p));
  }
}
