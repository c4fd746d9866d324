// user_ensure of kernel/ualloc.c: it cuts a range of pages into its unmapped runs and maps each.
module Ualloc {
  import opened Paging
  import opened PageSize
  import Multiples

  // A record of proc->alloc. `virt` holds what page_ensure returned, as in the source.
  datatype Region = Region(pages: nat, virt: nat)

  // A run of pages, by page number.
  datatype Run = Run(from: nat, to: nat)

  // `mapped` tells which pages are there, from page `first` on.
  predicate MaximalGap(first: nat, mapped: seq<bool>, run: Run) {
    && first <= run.from < run.to <= first + |mapped|
    && (forall k :: run.from - first <= k < run.to - first ==> !mapped[k])
    && (run.from == first || mapped[run.from - first - 1])
    && (run.to == first + |mapped| || mapped[run.to - first])
  }

  predicate InOrder(runs: seq<Run>) {
    forall i, j :: 0 <= i < j < |runs| ==> runs[i].to < runs[j].from
  }

  ghost predicate OnlyGaps(first: nat, mapped: seq<bool>, runs: seq<Run>) {
    forall run :: run in runs ==> MaximalGap(first, mapped, run)
  }

  ghost predicate AllGaps(first: nat, mapped: seq<bool>, runs: seq<Run>) {
    forall run :: MaximalGap(first, mapped, run) ==> run in runs
  }

  // The runs are those that end before position l, each once.
  ghost predicate GapsBefore(first: nat, mapped: seq<bool>, runs: seq<Run>, l: nat) {
    && InOrder(runs) && OnlyGaps(first, mapped, runs)
    && forall run :: run in runs <==> MaximalGap(first, mapped, run) && run.to < first + l
  }

  // Position l follows a mapped page or starts the range, and nothing is mapped between l and k.
  predicate Between(mapped: seq<bool>, l: nat, k: nat) {
    && l <= k <= |mapped|
    && (l == 0 || mapped[l - 1])
    && forall j :: l <= j < k ==> !mapped[j]
  }

  lemma NextGap(first: nat, mapped: seq<bool>, runs: seq<Run>, l: nat, k: nat)
    requires GapsBefore(first, mapped, runs, l) && Between(mapped, l, k) && l < k && (k == |mapped| || mapped[k])
    ensures GapsBefore(first, mapped, runs + [Run(first + l, first + k)], k + 1)
  {
    assert MaximalGap(first, mapped, Run(first + l, first + k));
    forall run | MaximalGap(first, mapped, run) && run.to < first + k + 1 && run.to >= first + l
      ensures run == Run(first + l, first + k)
    {
      assert run.to == first + k && run.from == first + l;
    }
  }

  lemma NoGap(first: nat, mapped: seq<bool>, runs: seq<Run>, l: nat)
    requires GapsBefore(first, mapped, runs, l) && l <= |mapped|
    requires l == 0 || mapped[l - 1]
    ensures l < |mapped| && mapped[l] ==> GapsBefore(first, mapped, runs, l + 1)
    ensures l == |mapped| ==> AllGaps(first, mapped, runs)
  {
  }

  // What the calls made since `before` are.
  lemma GapsAre(before: seq<Run>, first: nat, mapped: seq<bool>, runs: seq<Run>, l: nat)
    requires GapsBefore(first, mapped, runs, l)
    ensures (before + runs)[..|before|] == before && (before + runs)[|before|..] == runs
    ensures InOrder(runs) && OnlyGaps(first, mapped, runs)
    ensures l > |mapped| ==> AllGaps(first, mapped, runs)
  {
  }

  class Space {
    const dir: Directory
    var alloc: seq<Region>
    var frames: seq<int>           // what memory_alloc(1) will hand out, in turn
    ghost var calls: seq<Run>      // the pages that user_alloc_hard was called on and did map

    ghost predicate Valid()
      reads this, dir, dir.slots
    {
      dir.Valid() && forall frame :: frame in frames ==> Frame(frame)
    }

    constructor (frames: seq<int>)
      requires forall frame :: frame in frames ==> Frame(frame)
      ensures Valid() && this.frames == frames && alloc == [] && calls == []
    {
      dir := new Directory();
      alloc := [];
      this.frames := frames;
      calls := [];
    }

    // What user_alloc_hard makes of page_ensure: all pages were missing, and are the user's now.
    method MapForUser(virtual: int, pages: nat) returns (found: nat)
      requires Valid() && InUserSpace(PageOf(virtual), pages) && pages <= |frames|
      requires dir.Open(PageOf(virtual), pages)
      modifies dir.slots, dir.Tables()
      ensures dir.Valid() && fresh(dir.Tables() - old(dir.Tables())) && found == 0
      ensures forall page :: FIRST_PAGE <= page < LIMIT_PAGE ==>
                if PageOf(virtual) <= page < PageOf(virtual) + pages
                then dir.Word(page) % PAGE_SIZE == 7
                else dir.Word(page) == old(dir.Word(page))
    {
      hide CountMissing, FrameFor, EntryWord, PagingType, Frame, GrantsAsAsked, PageOf, Directory.TablesAdded;
      ghost var was := dir.Presence(PageOf(virtual), pages);
      NothingThere(dir, PageOf(virtual), pages);
      hide Directory.Presence, Directory.Open, Directory.Word;
      found := dir.Ensure(virtual, pages, USER_PAGE + READ_WRITE, frames);
      forall page | PageOf(virtual) <= page < PageOf(virtual) + pages ensures dir.Word(page) % PAGE_SIZE == 7 {
        NewWord(frames, was, page - PageOf(virtual));
      }
    }

    // user_alloc_hard. `granted` says whether both its allocations succeed.
    method AllocHard(virtual: int, pages: nat, granted: bool) returns (ok: bool)
      requires Valid() && pages != 0 && InUserSpace(PageOf(virtual), pages) && pages <= |frames|
      requires dir.Open(PageOf(virtual), pages)
      modifies this, dir.slots, dir.Tables()
      ensures Valid() && fresh(dir.Tables() - old(dir.Tables()))
      ensures ok == granted
      ensures calls == if ok then old(calls) + [Run(PageOf(virtual), PageOf(virtual) + pages)] else old(calls)
      ensures alloc == if ok then [Region(pages, 0)] + old(alloc) else old(alloc)
      ensures frames == if ok then old(frames)[pages..] else old(frames)
      ensures forall page :: FIRST_PAGE <= page < LIMIT_PAGE ==>
                if ok && PageOf(virtual) <= page < PageOf(virtual) + pages
                then dir.Word(page) % PAGE_SIZE == 7
                else dir.Word(page) == old(dir.Word(page))
    {
      if !granted {
        return false;
      }
      hide Frame, PageOf, Directory.Word;
      var found := MapForUser(virtual, pages);
      frames := frames[pages..];
      alloc := [Region(pages, found)] + alloc;
      calls := calls + [Run(PageOf(virtual), PageOf(virtual) + pages)];
      ok := true;
    }

    // The words of all pages, before user_ensure.
    ghost function Words(): (words: seq<int>)
      requires dir.Valid()
      reads this, dir.slots, dir.Tables()
      ensures |words| == LIMIT_PAGE - FIRST_PAGE
      ensures forall page :: FIRST_PAGE <= page < LIMIT_PAGE ==> words[page - FIRST_PAGE] == dir.Word(page)
    {
      seq(LIMIT_PAGE - FIRST_PAGE,
          i requires dir.Valid() && 0 <= i < LIMIT_PAGE - FIRST_PAGE reads this, dir.slots, dir.Tables() =>
            dir.Word(FIRST_PAGE + i))
    }

    // The first l pages of the range are mapped in, for the user where they were missing; the others are
    // as before.
    ghost predicate Progress(first: int, mapped: seq<bool>, l: nat, words: seq<int>)
      requires dir.Valid() && |words| == LIMIT_PAGE - FIRST_PAGE && InUserSpace(first, |mapped|)
      reads this, dir.slots, dir.Tables()
    {
      && (forall k :: 0 <= k < |mapped| ==> mapped[k] == Present(words[first + k - FIRST_PAGE]))
      && forall page :: FIRST_PAGE <= page < LIMIT_PAGE ==>
           if first <= page < first + l && page < first + |mapped| && !mapped[page - first]
           then dir.Word(page) % PAGE_SIZE == 7
           else dir.Word(page) == words[page - FIRST_PAGE]
    }

    // How far user_ensure has come at page k of the range: what was missing before page l is mapped, by the
    // calls made; since l nothing was there.
    ghost predicate Doing(first: nat, mapped: seq<bool>, made: seq<Run>, l: nat, k: nat, words: seq<int>)
      requires dir.Valid() && |words| == LIMIT_PAGE - FIRST_PAGE && InUserSpace(first, |mapped|)
      reads this, dir.slots, dir.Tables()
    {
      Between(mapped, l, k) && GapsBefore(first, mapped, made, l) && Progress(first, mapped, l, words)
    }

    // The next page is missing, or is there and nothing was missing before it.
    lemma GoesOn(first: nat, mapped: seq<bool>, made: seq<Run>, l: nat, k: nat, words: seq<int>)
      requires dir.Valid() && |words| == LIMIT_PAGE - FIRST_PAGE && InUserSpace(first, |mapped|)
      requires Doing(first, mapped, made, l, k, words) && k < |mapped|
      ensures dir.Mapped(first + k) == mapped[k]
      ensures !mapped[k] ==> Doing(first, mapped, made, l, k + 1, words)
      ensures mapped[k] && l == k ==> Doing(first, mapped, made, k + 1, k + 1, words)
    {
      hide GapsBefore, Progress;
      StillAsBefore(first, mapped, l, k, words);
      if mapped[k] && l == k {
        NoGap(first, mapped, made, l);
        StepOver(first, mapped, k, words);
      }
    }

    // Both places where user_ensure calls user_alloc_hard.
    method Fill(virtual: int, end: int, granted: bool, ghost l: nat, ghost k: nat,
                ghost first: nat, ghost mapped: seq<bool>, ghost words: seq<int>, ghost made: seq<Run>)
      returns (ok: bool)
      requires Valid() && |words| == LIMIT_PAGE - FIRST_PAGE && InUserSpace(first, |mapped|)
      requires Doing(first, mapped, made, l, k, words) && l < k && k - l <= |frames|
      requires PageOf(virtual) == first + l && end == virtual + (k - l) * PAGE_SIZE
      requires k == |mapped| || mapped[k]
      modifies this, dir.slots, dir.Tables()
      ensures Valid() && fresh(dir.Tables() - old(dir.Tables()))
      ensures ok == granted
      ensures calls == if ok then old(calls) + [Run(first + l, first + k)] else old(calls)
      ensures ok ==> |frames| == |old(frames)| - (k - l)
      ensures !ok ==> Doing(first, mapped, made, l, k, words)
      ensures ok && k < |mapped| ==>
                Doing(first, mapped, made + [Run(first + l, first + k)], k + 1, k + 1, words)
      ensures ok && k == |mapped| ==>
                && Progress(first, mapped, k, words)
                && GapsBefore(first, mapped, made + [Run(first + l, first + k)], k + 1)
    {
      hide GapsBefore;
      ok := FillRun(virtual, end, granted, l, k, first, mapped, words);
      hide Progress;
      if ok {
        NextGap(first, mapped, made, l, k);
        if k < |mapped| { StepOver(first, mapped, k, words); }
      }
    }

    method FillRun(virtual: int, end: int, granted: bool, ghost l: nat, ghost k: nat,
                   ghost first: nat, ghost mapped: seq<bool>, ghost words: seq<int>)
      returns (ok: bool)
      requires Valid() && |words| == LIMIT_PAGE - FIRST_PAGE && InUserSpace(first, |mapped|)
      requires Progress(first, mapped, l, words) && Between(mapped, l, k) && l < k && k - l <= |frames|
      requires PageOf(virtual) == first + l && end == virtual + (k - l) * PAGE_SIZE
      modifies this, dir.slots, dir.Tables()
      ensures Valid() && fresh(dir.Tables() - old(dir.Tables()))
      ensures ok == granted
      ensures Progress(first, mapped, if ok then k else l, words)
      ensures calls == if ok then old(calls) + [Run(first + l, first + k)] else old(calls)
      ensures ok ==> |frames| == |old(frames)| - (k - l)
    {
      hide Progress, PageOf, Frame, Directory.Valid;
      StillOpen(first, mapped, l, k, words);
      Multiples.Scaled(k - l, PAGE_SIZE);
      ok := AllocHard(virtual, (end - virtual) / PAGE_SIZE, granted);
      Filled(first, mapped, l, if ok then k else l, words);
    }

    lemma StillOpen(first: nat, mapped: seq<bool>, l: nat, k: nat, words: seq<int>)
      requires dir.Valid() && |words| == LIMIT_PAGE - FIRST_PAGE && InUserSpace(first, |mapped|)
      requires Progress(first, mapped, l, words) && Between(mapped, l, k)
      ensures dir.Open(first + l, k - l)
    {
      forall page | first + l <= page < first + k ensures !dir.Mapped(page) {
        assert !mapped[page - first];
      }
    }

    twostate lemma Filled(new first: nat, new mapped: seq<bool>, new l: nat, new k: nat, new words: seq<int>)
      requires old(dir.Valid()) && dir.Valid() && |words| == LIMIT_PAGE - FIRST_PAGE && InUserSpace(first, |mapped|)
      requires old(Progress(first, mapped, l, words)) && l <= k <= |mapped|
      requires forall j :: l <= j < k ==> !mapped[j]
      requires forall page :: FIRST_PAGE <= page < LIMIT_PAGE ==>
                 if first + l <= page < first + k then dir.Word(page) % PAGE_SIZE == 7
                 else dir.Word(page) == old(dir.Word(page))
      ensures Progress(first, mapped, k, words)
    {
    }

    // user_ensure. `granted` says which calls of user_alloc_hard find memory.
    method UserEnsure(ptr: int, pages: nat, granted: seq<bool>) returns (ok: bool)
      requires Valid() && InUserSpace(PageOf(ptr), pages) && pages <= |granted| && pages <= |frames|
      modifies this, dir.slots, dir.Tables()
      ensures Valid()
      ensures |old(calls)| <= |calls| && calls[..|old(calls)|] == old(calls)
      ensures InOrder(calls[|old(calls)|..])
      ensures OnlyGaps(PageOf(ptr), old(dir.Presence(PageOf(ptr), pages)), calls[|old(calls)|..])
      ensures ok ==> AllGaps(PageOf(ptr), old(dir.Presence(PageOf(ptr), pages)), calls[|old(calls)|..])
      ensures AsGranted(|calls| - |old(calls)|, granted, ok)
      ensures ok ==> forall page :: PageOf(ptr) <= page < PageOf(ptr) + pages ==> dir.Mapped(page)
      ensures forall page :: FIRST_PAGE <= page < LIMIT_PAGE ==>
                || dir.Word(page) == old(dir.Word(page))
                || (&& PageOf(ptr) <= page < PageOf(ptr) + pages && !old(dir.Mapped(page))
                    && dir.Word(page) % PAGE_SIZE == 7)
    {
      hide Directory.Presence, Directory.Valid, Directory.Word, Frame, InOrder, OnlyGaps, AllGaps, Words, Doing;
      ghost var first: nat := PageOf(ptr);
      ghost var was, words := dir.Presence(first, pages), Words();
      Started(first, pages);
      ok := MapRuns(ptr, pages, granted, was, words);
    }

    // What user_ensure leaves behind, given what was there before.
    ghost predicate LeftBehind(first: nat, mapped: seq<bool>, words: seq<int>, before: seq<Run>, ok: bool)
      requires dir.Valid() && |words| == LIMIT_PAGE - FIRST_PAGE && InUserSpace(first, |mapped|)
      reads this, dir.slots, dir.Tables()
    {
      && |before| <= |calls| && calls[..|before|] == before
      && InOrder(calls[|before|..]) && OnlyGaps(first, mapped, calls[|before|..])
      && (ok ==> AllGaps(first, mapped, calls[|before|..]))
      && (ok ==> forall page :: first <= page < first + |mapped| ==> dir.Mapped(page))
      && forall page :: FIRST_PAGE <= page < LIMIT_PAGE ==>
           || dir.Word(page) == words[page - FIRST_PAGE]
           || (&& first <= page < first + |mapped| && !Present(words[page - FIRST_PAGE])
               && dir.Word(page) % PAGE_SIZE == 7)
    }

    // This many calls found memory, and the next one did not if user_ensure stopped.
    predicate AsGranted(n: int, granted: seq<bool>, ok: bool) {
      && 0 <= n <= |granted| && (forall i :: 0 <= i < n ==> granted[i])
      && (!ok ==> n < |granted| && !granted[n])
    }

    // A present page ends the run that began at page l, if that has any page.
    method AtPresent(lastStart: int, index: int, granted: bool, ghost first: nat, ghost was: seq<bool>,
                     ghost made: seq<Run>, ghost l: nat, ghost k: nat, ghost words: seq<int>, ghost before: seq<Run>)
      returns (rc: bool, ghost now: seq<Run>)
      requires Valid() && |words| == LIMIT_PAGE - FIRST_PAGE && InUserSpace(first, |was|)
      requires Doing(first, was, made, l, k, words) && l <= k < |was| && was[k] && k - l <= |frames|
      requires PageOf(lastStart) == first + l && index == lastStart + (k - l) * PAGE_SIZE
      requires calls == before + made
      modifies this, dir.slots, dir.Tables()
      ensures Valid() && fresh(dir.Tables() - old(dir.Tables()))
      ensures rc ==> Doing(first, was, now, k + 1, k + 1, words) && calls == before + now
      ensures rc ==> |frames| >= |old(frames)| - (k - l)
      ensures rc ==> |now| == |made| + if index != lastStart then 1 else 0
      ensures index != lastStart ==> rc == granted
      ensures !rc ==> !granted && calls == before + made && LeftBehind(first, was, words, before, false)
    {
      hide Progress, Doing, Between, GapsBefore, LeftBehind, Directory.Valid;
      if index == lastStart {
        GoesOn(first, was, made, l, k, words);
        return true, made;
      }
      rc := Fill(lastStart, index, granted, l, k, first, was, words, made);
      if rc {
        Appended(before, made, Run(first + l, first + k));
        now := made + [Run(first + l, first + k)];
      } else {
        Stopped(first, was, made, l, k, words, before);
        now := made;
      }
    }

    // The loop of user_ensure.
    method MapRuns(ptr: int, pages: nat, granted: seq<bool>, ghost was: seq<bool>, ghost words: seq<int>)
      returns (ok: bool)
      requires Valid() && InUserSpace(PageOf(ptr), pages) && pages <= |granted| && pages <= |frames|
      requires |was| == pages && |words| == LIMIT_PAGE - FIRST_PAGE && Doing(PageOf(ptr), was, [], 0, 0, words)
      modifies this, dir.slots, dir.Tables()
      ensures Valid() && AsGranted(|calls| - |old(calls)|, granted, ok)
      ensures LeftBehind(PageOf(ptr), was, words, old(calls), ok)
    {
      hide Directory.Presence, Directory.Valid, Directory.Word, Frame, AllGaps, GapsBefore;
      hide Progress, Doing, Between, PageOf, LeftBehind, Directory.EntryPresent, Space.Valid;
      Sound();
      ghost var first: nat := PageOf(ptr);
      var index, lastStart := ptr, ptr;
      var end := ptr + pages * PAGE_SIZE;
      var tried := 0;
      ghost var k, l := 0, 0;
      ghost var made: seq<Run> := [];
      while index < end
        invariant 0 <= l <= k <= pages && index == ptr + k * PAGE_SIZE && lastStart == ptr + l * PAGE_SIZE
        invariant Valid() && dir.Valid() && fresh(dir.Tables() - old(dir.Tables()))
        invariant tried <= l && pages - l <= |frames|
        invariant calls == old(calls) + made && |made| == tried && forall i :: 0 <= i < tried ==> granted[i]
        invariant Doing(first, was, made, l, k, words)
      {
        PageAt(ptr, k);
        PageAt(ptr, l);
        GoesOn(first, was, made, l, k, words);
        if dir.EntryPresent(index) {
          var rc;
          rc, made := AtPresent(lastStart, index, granted[tried], first, was, made, l, k, words, old(calls));
          Sound();
          if !rc { return false; }
          if index != lastStart { tried := tried + 1; }
          lastStart := index + PAGE_SIZE;
          l := k + 1;
        }
        k := k + 1;
        index := index + PAGE_SIZE;
      }
      if lastStart < end {
        PageAt(ptr, l);
        var rc := Fill(lastStart, end, granted[tried], l, k, first, was, words, made);
        Sound();
        if !rc {
          Stopped(first, was, made, l, k, words, old(calls));
          return false;
        }
        Appended(old(calls), made, Run(first + l, first + k));
        made := made + [Run(first + l, first + k)];
        Leaves(first, was, made, k + 1, k, words, old(calls), true);
      } else {
        Complete(first, was, made, words, old(calls));
      }
      ok := true;
    }

    lemma Sound()
      requires Valid()
      ensures dir.Valid()
    {
    }

    lemma Appended(a: seq<Run>, b: seq<Run>, r: Run)
      ensures a + b + [r] == a + (b + [r])
    {
    }

    lemma Leaves(first: nat, mapped: seq<bool>, made: seq<Run>, g: nat, l: nat, words: seq<int>, before: seq<Run>,
                 ok: bool)
      requires dir.Valid() && |words| == LIMIT_PAGE - FIRST_PAGE && InUserSpace(first, |mapped|)
      requires calls == before + made && GapsBefore(first, mapped, made, g)
      requires l <= |mapped| && Progress(first, mapped, l, words)
      requires ok ==> l == |mapped| && (g > |mapped| || AllGaps(first, mapped, made))
      ensures LeftBehind(first, mapped, words, before, ok)
    {
      hide GapsBefore, Progress, AllGaps, OnlyGaps, InOrder;
      GapsAre(before, first, mapped, made, g);
      Finished(first, mapped, l, words);
    }

    // A stop at page k.
    lemma Stopped(first: nat, mapped: seq<bool>, made: seq<Run>, l: nat, k: nat, words: seq<int>, before: seq<Run>)
      requires dir.Valid() && |words| == LIMIT_PAGE - FIRST_PAGE && InUserSpace(first, |mapped|)
      requires Doing(first, mapped, made, l, k, words) && calls == before + made
      ensures LeftBehind(first, mapped, words, before, false)
    {
      hide GapsBefore, Progress, LeftBehind;
      Leaves(first, mapped, made, l, l, words, before, false);
    }

    // The last page of the range was there.
    lemma Complete(first: nat, mapped: seq<bool>, made: seq<Run>, words: seq<int>, before: seq<Run>)
      requires dir.Valid() && |words| == LIMIT_PAGE - FIRST_PAGE && InUserSpace(first, |mapped|)
      requires Doing(first, mapped, made, |mapped|, |mapped|, words) && calls == before + made
      ensures LeftBehind(first, mapped, words, before, true)
    {
      hide GapsBefore, Progress, LeftBehind;
      NoGap(first, mapped, made, |mapped|);
      Leaves(first, mapped, made, |mapped|, |mapped|, words, before, true);
    }

    lemma Started(first: nat, pages: nat)
      requires dir.Valid() && InUserSpace(first, pages)
      ensures Doing(first, dir.Presence(first, pages), [], 0, 0, Words())
    {
      hide Directory.Presence, Words;
      dir.PresenceIs(first, pages);
      var mapped, words := dir.Presence(first, pages), Words();
      forall k | 0 <= k < |mapped| ensures mapped[k] == Present(words[first + k - FIRST_PAGE]) {
        assert dir.Presence(first, pages)[first + k - first] == dir.Mapped(first + k);
        assert words[first + k - FIRST_PAGE] == dir.Word(first + k);
      }
    }

    lemma StillAsBefore(first: int, mapped: seq<bool>, l: nat, k: nat, words: seq<int>)
      requires dir.Valid() && |words| == LIMIT_PAGE - FIRST_PAGE && InUserSpace(first, |mapped|)
      requires Progress(first, mapped, l, words) && l <= k < |mapped|
      ensures dir.Mapped(first + k) == mapped[k]
    {
    }

    lemma StepOver(first: int, mapped: seq<bool>, k: nat, words: seq<int>)
      requires dir.Valid() && |words| == LIMIT_PAGE - FIRST_PAGE && InUserSpace(first, |mapped|)
      requires Progress(first, mapped, k, words) && k < |mapped| && mapped[k]
      ensures Progress(first, mapped, k + 1, words)
    {
    }

    lemma Finished(first: int, mapped: seq<bool>, l: nat, words: seq<int>)
      requires dir.Valid() && |words| == LIMIT_PAGE - FIRST_PAGE && InUserSpace(first, |mapped|)
      requires Progress(first, mapped, l, words) && l <= |mapped|
      ensures l == |mapped| ==> forall page :: first <= page < first + |mapped| ==> dir.Mapped(page)
      ensures forall page :: FIRST_PAGE <= page < LIMIT_PAGE ==>
                || dir.Word(page) == words[page - FIRST_PAGE]
                || (&& first <= page < first + |mapped| && !Present(words[page - FIRST_PAGE])
                    && dir.Word(page) % PAGE_SIZE == 7)
    {
      forall page | first <= page < first + l ensures dir.Mapped(page) {
        assert mapped[page - first] == Present(words[page - FIRST_PAGE]);
      }
    }
  }

  lemma PageAt(address: int, k: nat)
    ensures PageOf(address + k * PAGE_SIZE) == PageOf(address) + k
  {
  }

  lemma {:induction false} AllMissing(mapped: seq<bool>)
    requires forall k :: 0 <= k < |mapped| ==> !mapped[k]
    ensures CountMissing(mapped) == |mapped|
  {
    if mapped != [] {
      AllMissing(mapped[..|mapped| - 1]);
    }
  }

  lemma NothingThere(dir: Directory, first: int, pages: nat)
    requires dir.Valid() && InUserSpace(first, pages) && dir.Open(first, pages)
    ensures CountMissing(dir.Presence(first, pages)) == pages
    ensures forall page :: first <= page < first + pages ==> !dir.Mapped(page)
  {
    AllMissing(dir.Presence(first, pages));
  }

  lemma NewWord(frames: seq<int>, mapped: seq<bool>, k: nat)
    requires k < |mapped| <= |frames| && forall frame :: frame in frames ==> Frame(frame)
    ensures EntryWord(FrameFor(frames, mapped, k), PagingType(USER_PAGE + READ_WRITE)) % PAGE_SIZE == 7
  {
    FrameAt(frames, mapped, k);
    var frame := FrameFor(frames, mapped, k);
    assert frame in frames && frame % PAGE_SIZE == 0;
    assert PagingType(USER_PAGE + READ_WRITE) == 6;
    assert (frame + 7) % PAGE_SIZE == 7;
  }
}
