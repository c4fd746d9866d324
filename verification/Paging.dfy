// Two-level page tables (kernel/paging.c) as a flat map from page numbers to entry words.
module Paging {
  import opened PageSize
  import Multiples

  const ENTRIES := 1024

  // The part of the address space that has page tables: directory slots 512 to 1015.
  const FIRST_PAGE := 512 * ENTRIES
  const LIMIT_PAGE := 1016 * ENTRIES

  // `memory_alloc(1)` hands out page-aligned frames, or 0.
  predicate Frame(a: int) { a >= 0 && a % PAGE_SIZE == 0 }

  // An entry word holds a frame, the access bits, and in its lowest bit whether it is present.
  predicate Present(word: int) { word % 2 == 1 }

  function FrameOf(word: int): int { word / PAGE_SIZE * PAGE_SIZE }

  // What a caller asks for, and where the processor reads it: bit 1 and bit 2 on both sides.
  const READ_WRITE: nat := 2
  const USER_PAGE: nat := 4

  // The word lets the user write, or use the page at all, as asked.
  predicate GrantsAsAsked(word: int, flags: nat) {
    word / 2 % 2 == flags / 2 % 2 && word / 4 % 2 == flags / 4 % 2
  }

  // The other requests set no bit.
  function PagingType(flags: nat): (bits: int)
    ensures 0 <= bits < PAGE_SIZE && bits % 2 == 0
    ensures bits < 8 && GrantsAsAsked(bits, flags)
  {
    (if flags / 2 % 2 == 1 then 2 else 0) + (if flags / 4 % 2 == 1 then 4 else 0)
  }

  function EntryWord(frame: int, bits: int): int { frame + bits + 1 }

  lemma EntryGrants(frame: int, flags: nat)
    requires Frame(frame)
    ensures GrantsAsAsked(EntryWord(frame, PagingType(flags)), flags)
  {
    var k, bits := frame / PAGE_SIZE, PagingType(flags);
    assert frame == k * PAGE_SIZE;
    Multiples.DivUnique(frame + bits + 1, k * (PAGE_SIZE / 2) + bits / 2, 1, 2);
    Multiples.DivUnique(k * (PAGE_SIZE / 2) + bits / 2, k * (PAGE_SIZE / 4) + bits / 4, bits / 2 % 2, 2);
    Multiples.DivUnique(frame + bits + 1, k * (PAGE_SIZE / 4) + bits / 4, bits % 4 + 1, 4);
    Multiples.DivUnique(k * (PAGE_SIZE / 4) + bits / 4, k * (PAGE_SIZE / 8), bits / 4, 2);
  }

  lemma EntryWordHolds(frame: int, bits: int)
    requires Frame(frame) && 0 <= bits < PAGE_SIZE && bits % 2 == 0
    ensures Present(EntryWord(frame, bits)) && FrameOf(EntryWord(frame, bits)) == frame
  {
    var k, h := frame / PAGE_SIZE, bits / 2;
    assert frame == k * PAGE_SIZE && bits == h * 2;
    Multiples.DivUnique(frame + bits + 1, k, bits + 1, PAGE_SIZE);
    Multiples.DivUnique(frame + bits + 1, k * (PAGE_SIZE / 2) + h, 1, 2);
  }

  function PageOf(address: int): int { address / PAGE_SIZE }

  predicate InUserSpace(first: int, pages: int) {
    FIRST_PAGE <= first && 0 <= pages && first + pages <= LIMIT_PAGE
  }

  // A directory slot: no table, a table with its access bits, or a 4 MB page of the kernel.
  datatype Slot = Missing | Table(table: array<int>, bits: int) | Big

  // How many of the pages in a row are missing, or already there.
  function CountMissing(mapped: seq<bool>): (n: nat)
    ensures n <= |mapped|
  {
    if mapped == [] then 0 else CountMissing(mapped[..|mapped| - 1]) + if mapped[|mapped| - 1] then 0 else 1
  }

  // The frame that the k-th page of a row gets, if it is missing.
  function FrameFor(frames: seq<int>, mapped: seq<bool>, k: int): int {
    if 0 <= k <= |mapped| && CountMissing(mapped[..k]) < |frames| then frames[CountMissing(mapped[..k])] else 0
  }

  lemma FrameAt(frames: seq<int>, mapped: seq<bool>, k: nat)
    requires k < |mapped| <= |frames|
    ensures CountMissing(mapped[..k]) <= k && FrameFor(frames, mapped, k) == frames[CountMissing(mapped[..k])]
  {
  }

  lemma MissingNext(mapped: seq<bool>, k: nat)
    requires k < |mapped|
    ensures CountMissing(mapped[..k + 1]) == CountMissing(mapped[..k]) + if mapped[k] then 0 else 1
  {
    assert mapped[..k + 1][..k] == mapped[..k];
  }

  class Directory {
    const slots: array<Slot>

    ghost function Tables(): set<array<int>>
      reads slots
    {
      set i | 0 <= i < slots.Length && slots[i].Table? :: slots[i].table
    }

    ghost predicate Valid()
      reads slots
    {
      && slots.Length == ENTRIES
      && (forall i :: 512 <= i < 1016 ==> !slots[i].Big?)
      && (forall i :: 0 <= i < slots.Length && slots[i].Table? ==> slots[i].table.Length == ENTRIES)
      && (forall i, j :: 0 <= i < j < slots.Length && slots[i].Table? && slots[j].Table? ==>
            slots[i].table != slots[j].table)
    }

    // The flat map: the word that the two levels give for a page, 0 where there is no table.
    ghost function Word(page: int): int
      requires Valid() && FIRST_PAGE <= page < LIMIT_PAGE
      reads slots, Tables()
    {
      var slot := slots[page / ENTRIES];
      if slot.Table? then slot.table[page % ENTRIES] else 0
    }

    ghost predicate Mapped(page: int)
      requires Valid() && FIRST_PAGE <= page < LIMIT_PAGE
      reads slots, Tables()
    {
      Present(Word(page))
    }

    // new_page_directory
    constructor ()
      ensures Valid() && fresh(slots) && fresh(Tables())
      ensures forall page :: FIRST_PAGE <= page < LIMIT_PAGE ==> !Mapped(page)
    {
      slots := new Slot[ENTRIES](i => if 512 <= i < 1016 then Missing else Big);
    }

    // page_entry_present
    function EntryPresent(address: int): (there: bool)
      requires Valid() && FIRST_PAGE <= PageOf(address) < LIMIT_PAGE
      reads slots, Tables()
      ensures there == Mapped(PageOf(address))
    {
      var slot := slots[address / 0x400000];
      slot.Table? && Present(slot.table[address / PAGE_SIZE % ENTRIES])
    }

    // The part of page_direct_map and page_ensure that adds a table where there is none.
    method AddTable(address: int, bits: int)
      requires Valid() && FIRST_PAGE <= PageOf(address) < LIMIT_PAGE
      modifies slots
      ensures Valid() && slots[address / 0x400000].Table?
      ensures fresh(Tables() - old(Tables()))
      ensures forall i :: 0 <= i < slots.Length && (i != address / 0x400000 || old(slots[i].Table?)) ==>
                slots[i] == old(slots[i])
      ensures !old(slots[address / 0x400000].Table?) ==> slots[address / 0x400000].bits == bits
      ensures forall page :: FIRST_PAGE <= page < LIMIT_PAGE ==> Word(page) == old(Word(page))
    {
      var index := address / 0x400000;
      if !slots[index].Table? {
        var table := new int[ENTRIES](_ => 0);
        slots[index] := Table(table, bits);
      }
    }

    method SetWord(address: int, word: int)
      requires Valid() && FIRST_PAGE <= PageOf(address) < LIMIT_PAGE && slots[address / 0x400000].Table?
      modifies Tables()
      ensures Word(PageOf(address)) == word
      ensures forall page :: FIRST_PAGE <= page < LIMIT_PAGE && page != PageOf(address) ==>
                Word(page) == old(Word(page))
    {
      var table := slots[address / 0x400000].table;
      table[address / PAGE_SIZE % ENTRIES] := word;
    }

    // The only tables that come are those of the given pages where there was none, with the access asked for.
    twostate predicate TablesAdded(first: int, pages: int, flags: nat)
      reads slots
    {
      forall i :: 0 <= i < slots.Length ==>
        || slots[i] == old(slots[i])
        || (&& !old(slots[i].Table?) && slots[i].Table? && GrantsAsAsked(slots[i].bits, flags)
            && i * ENTRIES < first + pages && first < (i + 1) * ENTRIES)
    }

    // The processor allows an access (2 for writing, 4 for the user's) only where the directory and the table do.
    ghost predicate Allows(page: int, right: nat)
      requires Valid() && FIRST_PAGE <= page < LIMIT_PAGE && right > 0
      reads slots, Tables()
    {
      var slot := slots[page / ENTRIES];
      slot.Table? && slot.bits / right % 2 == 1 && Word(page) / right % 2 == 1
    }

    // What the pages mapped by a call allow: what was asked for, if the table was not there before, or else
    // what both ask and table allow.
    twostate lemma AllowsAsTheTable(first: int, pages: int, flags: nat, page: int)
      requires old(Valid()) && Valid() && InUserSpace(first, pages) && first <= page < first + pages
      requires TablesAdded(first, pages, flags) && GrantsAsAsked(Word(page), flags) && Mapped(page)
      ensures forall right :: right == READ_WRITE || right == USER_PAGE ==>
                (Allows(page, right) <==>
                 && flags / right % 2 == 1
                 && (old(slots[page / ENTRIES].Table?) ==> old(slots[page / ENTRIES].bits) / right % 2 == 1))
    {
    }

    // page_direct_map
    method DirectMap(physical: int, start: int, pages: nat, flags: nat)
      requires Valid() && Frame(physical) && InUserSpace(PageOf(start), pages)
      modifies slots, Tables()
      ensures Valid() && fresh(Tables() - old(Tables()))
      ensures forall page :: FIRST_PAGE <= page < LIMIT_PAGE ==>
                Word(page) == if PageOf(start) <= page < PageOf(start) + pages
                              then EntryWord(physical + (page - PageOf(start)) * PAGE_SIZE, PagingType(flags))
                              else old(Word(page))
      ensures forall page :: PageOf(start) <= page < PageOf(start) + pages ==> GrantsAsAsked(Word(page), flags)
      ensures TablesAdded(PageOf(start), pages, flags)
    {
      hide GrantsAsAsked, PagingType;
      var bits := PagingType(flags);
      var index, phys := start, physical;
      for i := 0 to pages
        invariant Valid() && fresh(Tables() - old(Tables())) && TablesAdded(PageOf(start), i, flags)
        invariant index == start + i * PAGE_SIZE && phys == physical + i * PAGE_SIZE
        invariant forall page :: FIRST_PAGE <= page < LIMIT_PAGE ==>
                    Word(page) == if PageOf(start) <= page < PageOf(start) + i
                                  then EntryWord(physical + (page - PageOf(start)) * PAGE_SIZE, bits)
                                  else old(Word(page))
      {
        AddTable(index, bits);
        SetWord(index, EntryWord(phys, bits));
        phys := phys + PAGE_SIZE;
        index := index + PAGE_SIZE;
      }
      forall page | PageOf(start) <= page < PageOf(start) + pages ensures GrantsAsAsked(Word(page), flags) {
        EntryGrants(physical + (page - PageOf(start)) * PAGE_SIZE, flags);
      }
    }

    // page_release
    method Release(start: int, pages: nat)
      requires Valid() && InUserSpace(PageOf(start), pages)
      modifies Tables()
      ensures forall page :: FIRST_PAGE <= page < LIMIT_PAGE ==>
                Word(page) == if PageOf(start) <= page < PageOf(start) + pages && old(Mapped(page))
                              then 0 else old(Word(page))
    {
      var index := start;
      for i := 0 to pages
        invariant index == start + i * PAGE_SIZE
        invariant forall page :: FIRST_PAGE <= page < LIMIT_PAGE ==>
                    Word(page) == if PageOf(start) <= page < PageOf(start) + i && old(Mapped(page))
                                  then 0 else old(Word(page))
      {
        var there := EntryPresent(index);
        if there { SetWord(index, 0); }
        index := index + PAGE_SIZE;
      }
    }

    ghost predicate Open(first: int, pages: nat)
      requires Valid() && InUserSpace(first, pages)
      reads slots, Tables()
    {
      forall page :: first <= page < first + pages ==> !Mapped(page)
    }

    // The lowest start below `finish` whose whole run is unmapped, 0 if there is none.
    ghost predicate Lowest(found: int, start: int, finish: int, pages: nat)
      requires Valid() && FIRST_PAGE <= PageOf(start) && finish + pages * PAGE_SIZE <= LIMIT_PAGE * PAGE_SIZE
      reads slots, Tables()
    {
      && (found != 0 ==>
            && found % PAGE_SIZE == 0 && PageOf(start) <= PageOf(found) && found < finish
            && Open(PageOf(found), pages))
      && (forall page :: PageOf(start) <= page && page * PAGE_SIZE < finish ==>
            (found == 0 || page < PageOf(found)) ==> !Open(page, pages))
    }

    // Only the start is bounded by `finish`: the run ends below it exactly when some unmapped run does.
    lemma EndsBelowExactly(found: int, start: int, finish: int, pages: nat)
      requires Valid() && FIRST_PAGE <= PageOf(start) && finish + pages * PAGE_SIZE <= LIMIT_PAGE * PAGE_SIZE
      requires Lowest(found, start, finish, pages) && found != 0
      ensures found + pages * PAGE_SIZE <= finish <==>
              exists page :: PageOf(start) <= page && (page + pages) * PAGE_SIZE <= finish && Open(page, pages)
    {
      if found + pages * PAGE_SIZE <= finish {
        assert (PageOf(found) + pages) * PAGE_SIZE <= finish;
      }
    }

    // Two unmapped pages are found where only the first lies below `finish`.
    lemma EndsAbove(first: int)
      requires Valid() && FIRST_PAGE <= first && first + 3 <= LIMIT_PAGE && Open(first, 2)
      ensures Lowest(first * PAGE_SIZE, first * PAGE_SIZE, (first + 1) * PAGE_SIZE, 2)
    {
    }

    // page_find_free
    method FindFree(start: int, finish: int, pages: nat) returns (found: int)
      requires Valid() && FIRST_PAGE <= PageOf(start) && finish + pages * PAGE_SIZE <= LIMIT_PAGE * PAGE_SIZE
      ensures Lowest(found, start, finish, pages)
    {
      found := 0;
      var current := start / PAGE_SIZE * PAGE_SIZE;
      while current < finish
        invariant current % PAGE_SIZE == 0 && start / PAGE_SIZE * PAGE_SIZE <= current
        invariant forall page :: PageOf(start) <= page < PageOf(current) && page * PAGE_SIZE < finish ==>
                    !Open(page, pages)
      {
        var count := 0;
        var open := true;
        ghost var from := current;
        assert InUserSpace(PageOf(from), pages);
        while count < pages
          invariant 0 <= count <= pages && current == from && open
          invariant forall page :: PageOf(from) <= page < PageOf(from) + count ==> !Mapped(page)
        {
          ghost var page := PageOf(from) + count;
          assert PageOf(current + count * PAGE_SIZE) == page;
          var there := EntryPresent(current + count * PAGE_SIZE);
          if there {
            open := false;
            current := current + count * PAGE_SIZE;
            break;
          }
          count := count + 1;
        }
        if open {
          return current;
        }
        ghost var hit := PageOf(current);
        forall page | PageOf(from) <= page <= hit && page * PAGE_SIZE < finish ensures !Open(page, pages) {
          assert Mapped(hit);
        }
        current := current + PAGE_SIZE;
      }
    }

    // page_provide: never overwrites a mapping.
    method Provide(physical: int, start: int, end: int, pages: nat, flags: nat) returns (location: int)
      requires Valid() && Frame(physical)
      requires FIRST_PAGE <= PageOf(start) && end + pages * PAGE_SIZE <= LIMIT_PAGE * PAGE_SIZE
      modifies slots, Tables()
      ensures Valid() && fresh(Tables() - old(Tables()))
      ensures location == 0 ==>
                forall page :: PageOf(start) <= page && page * PAGE_SIZE < end ==> !old(Open(page, pages))
      ensures location != 0 ==>
                && location % PAGE_SIZE == 0 && PageOf(start) <= PageOf(location) && location < end
                && old(Open(PageOf(location), pages))
      ensures forall page :: FIRST_PAGE <= page < LIMIT_PAGE ==>
                Word(page) == if location != 0 && PageOf(location) <= page < PageOf(location) + pages
                              then EntryWord(physical + (page - PageOf(location)) * PAGE_SIZE, PagingType(flags))
                              else old(Word(page))
      ensures location != 0 ==>
                && TablesAdded(PageOf(location), pages, flags)
                && forall page :: PageOf(location) <= page < PageOf(location) + pages ==>
                     GrantsAsAsked(Word(page), flags)
      ensures forall page :: FIRST_PAGE <= page < LIMIT_PAGE && old(Mapped(page)) ==> Word(page) == old(Word(page))
    {
      location := FindFree(start, end, pages);
      forall page | PageOf(start) <= page && page * PAGE_SIZE < end && (location == 0 || page < PageOf(location))
        ensures !old(Open(page, pages))
      {
        assert !Open(page, pages);
      }
      if location != 0 {
        DirectMap(physical, location, pages, flags);
      }
    }

    // Which pages of a run are mapped.
    ghost function Presence(first: int, pages: nat): (r: seq<bool>)
      requires Valid() && InUserSpace(first, pages)
      reads slots, Tables()
      ensures |r| == pages
    {
      seq(pages, k requires 0 <= k < pages && Valid() && InUserSpace(first, pages) reads slots, Tables() =>
        Mapped(first + k))
    }

    lemma PresenceIs(first: int, pages: nat)
      requires Valid() && InUserSpace(first, pages)
      ensures forall page :: first <= page < first + pages ==> Presence(first, pages)[page - first] == Mapped(page)
    {
    }

    // The body of the loop of page_ensure.
    method EnsurePage(address: int, bits: int, frame: int) returns (already: bool)
      requires Valid() && FIRST_PAGE <= PageOf(address) < LIMIT_PAGE
      modifies slots, Tables()
      ensures Valid() && fresh(Tables() - old(Tables()))
      ensures already == old(Mapped(PageOf(address)))
      ensures forall page :: FIRST_PAGE <= page < LIMIT_PAGE ==>
                Word(page) == if page == PageOf(address) && !already then EntryWord(frame, bits) else old(Word(page))
      ensures forall i :: 0 <= i < slots.Length ==>
                || slots[i] == old(slots[i])
                || (i == PageOf(address) / ENTRIES && !old(slots[i].Table?) && slots[i].Table? && slots[i].bits == bits)
    {
      AddTable(address, bits);
      already := EntryPresent(address);
      if !already {
        SetWord(address, EntryWord(frame, bits));
      }
    }

    // page_ensure. `frames` are the frames that memory_alloc hands out, used in turn.
    method Ensure(start: int, pages: nat, flags: nat, frames: seq<int>) returns (alreadies: nat)
      requires Valid() && InUserSpace(PageOf(start), pages)
      requires |frames| >= pages && forall frame :: frame in frames ==> Frame(frame)
      modifies slots, Tables()
      ensures Valid() && fresh(Tables() - old(Tables()))
      ensures alreadies == pages - CountMissing(old(Presence(PageOf(start), pages)))
      ensures forall page :: FIRST_PAGE <= page < LIMIT_PAGE ==>
                Word(page) == if PageOf(start) <= page < PageOf(start) + pages && !old(Mapped(page))
                              then
                                EntryWord(FrameFor(frames, old(Presence(PageOf(start), pages)), page - PageOf(start)),
                                          PagingType(flags))
                              else old(Word(page))
      ensures forall page :: PageOf(start) <= page < PageOf(start) + pages ==>
                Mapped(page) && (!old(Mapped(page)) ==> GrantsAsAsked(Word(page), flags))
      ensures TablesAdded(PageOf(start), pages, flags)
    {
      hide CountMissing, FrameFor, Valid, Word, Presence;
      var bits := PagingType(flags);
      var index := start - PAGE_SIZE;
      alreadies := 0;
      ghost var first := PageOf(start);
      ghost var was := Presence(first, pages);
      PresenceIs(first, pages);
      for i := 0 to pages
        invariant Valid() && fresh(Tables() - old(Tables())) && TablesAdded(first, i, flags)
        invariant index == start + (i - 1) * PAGE_SIZE
        invariant i - alreadies == CountMissing(was[..i])
        invariant forall page :: FIRST_PAGE <= page < LIMIT_PAGE ==>
                    Word(page) == if first <= page < first + i && !old(Mapped(page))
                                  then EntryWord(FrameFor(frames, was, page - first), bits)
                                  else old(Word(page))
      {
        index := index + PAGE_SIZE;
        ghost var page := first + i;
        assert PageOf(index) == page && Word(page) == old(Word(page)) && was[page - first] == old(Mapped(page));
        MissingNext(was, i);
        FrameAt(frames, was, i);
        var there := EnsurePage(index, bits, frames[i - alreadies]);
        if there { alreadies := alreadies + 1; }
      }
      assert was[..pages] == was;
      forall page | first <= page < first + pages
        ensures Mapped(page) && (!old(Mapped(page)) ==> GrantsAsAsked(Word(page), flags))
      {
        FrameAt(frames, was, page - first);
        EntryWordHolds(FrameFor(frames, was, page - first), bits);
        EntryGrants(FrameFor(frames, was, page - first), flags);
      }
    }
  }
}
