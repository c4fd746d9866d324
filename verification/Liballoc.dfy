// kernel/mm/liballoc.c: malloc, free and realloc over the physical page allocator.
module Liballoc {
  import opened Options
  import opened LiballocLayout
  import opened LiballocHeap
  import opened PageSize
  import PhysMem
  import Multiples

  newtype byte = x: int | 0 <= x < 256

  // ---- the alignment macros ----

  // ALIGN: past the two tag bytes, then up to the next multiple of four.
  function Aligned(raw: nat): (p: nat) {
    var q := raw + ALIGN_INFO;
    if q % ALIGNMENT != 0 then q + (ALIGNMENT - q % ALIGNMENT) else q
  }

  // The tag is the distance to go back; UNALIGN ignores tags that ALIGN cannot have written.
  lemma AlignedRange(raw: nat)
    ensures Aligned(raw) % ALIGNMENT == 0
    ensures ALIGN_INFO <= Aligned(raw) - raw < ALIGNMENT + ALIGN_INFO
  {
  }

  function TagOf(mem: seq<byte>, p: nat): nat
    requires ALIGN_INFO <= p <= |mem|
  {
    mem[p - 2] as nat + 256 * mem[p - 1] as nat
  }

  function Unaligned(mem: seq<byte>, p: nat): int
    requires ALIGN_INFO <= p <= |mem|
  {
    if TagOf(mem, p) < ALIGNMENT + ALIGN_INFO then p - TagOf(mem, p) else p
  }

  // UNALIGN goes back by a tag that is no larger than one that ALIGN writes, and ignores any other.
  lemma UnalignExactly(mem: seq<byte>, p: nat)
    requires ALIGN_INFO <= p <= |mem|
    ensures Unaligned(mem, p) ==
            if exists raw: nat :: TagOf(mem, p) <= Aligned(raw) - raw then p - TagOf(mem, p) else p
  {
    assert Aligned(3) - 3 == ALIGNMENT + ALIGN_INFO - 1;
    if raw: nat :| TagOf(mem, p) <= Aligned(raw) - raw {
      AlignedRange(raw);
    }
  }

  // The payload address malloc returns for a block.
  function Payload(x: Minor): nat { Aligned(x.addr + MINOR_HEADER) }

  ghost predicate Tagged(mem: seq<byte>, x: Minor) {
    && Payload(x) <= |mem| && End(x) <= |mem|
    && mem[Payload(x) - 2] as nat == Payload(x) - (x.addr + MINOR_HEADER) && mem[Payload(x) - 1] == 0
  }

  lemma PayloadPositive(x: Minor)
    ensures Payload(x) > 0
  {
    AlignedRange(x.addr + MINOR_HEADER);
  }

  // The requested bytes and the tag lie inside the block.
  lemma PayloadInside(x: Minor)
    requires x.size >= x.reqSize + ALIGNMENT + ALIGN_INFO
    ensures x.addr + MINOR_HEADER + ALIGN_INFO <= Payload(x) && Payload(x) + x.reqSize <= End(x)
    ensures Payload(x) % ALIGNMENT == 0
  {
    AlignedRange(x.addr + MINOR_HEADER);
  }

  // UNALIGN undoes ALIGN for every raw address.
  lemma UnalignUndoesAlign(mem: seq<byte>, x: Minor)
    requires Tagged(mem, x)
    ensures Unaligned(mem, Payload(x)) == x.addr + MINOR_HEADER
  {
    AlignedRange(x.addr + MINOR_HEADER);
  }

  // Tag bytes belong to their own block only.
  lemma TaggedElsewhere(mem: seq<byte>, mem': seq<byte>, ms: seq<Major>, x: Minor, y: Minor)
    requires MajorsOk(ms) && x in Blocks(ms) && y in Blocks(ms) && x != y && Tagged(mem, y) && |mem'| == |mem|
    requires forall a :: 0 <= a < |mem| && !(x.addr <= a < End(x)) ==> mem'[a] == mem[a]
    ensures Tagged(mem', y)
  {
    BlocksApart(ms, x, y);
    SizeOk(ms, y);
    PayloadInside(y);
  }

  lemma SizeOk(ms: seq<Major>, y: Minor)
    requires MajorsOk(ms) && y in Blocks(ms)
    ensures y.size >= y.reqSize + ALIGNMENT + ALIGN_INFO
  {
    var i :| 0 <= i < |ms| && y in ms[i].minors;
    assert MajorOk(ms[i]);
  }

  // A payload meets no header and no other block, wherever they are.
  lemma PayloadsApart(ms: seq<Major>, x: Minor, y: Minor, i: nat)
    requires MajorsOk(ms) && x in Blocks(ms) && y in Blocks(ms) && x != y && i < |ms|
    ensures x.addr + MINOR_HEADER + ALIGN_INFO <= Payload(x)
    ensures Payload(x) + x.reqSize <= y.addr || End(y) <= Payload(x)
    ensures Payload(x) + x.reqSize <= ms[i].addr || ms[i].Low() <= Payload(x)
  {
    SizeOk(ms, x);
    PayloadInside(x);
    BlocksApart(ms, x, y);
    var k :| 0 <= k < |ms| && x in ms[k].minors;
    BlockInside(ms, k, x);
    assert MajorOk(ms[i]);
    assert i < k ==> MajorsApart(ms[i], ms[k]);
    assert k < i ==> MajorsApart(ms[k], ms[i]);
  }

  predicate Room(m: Major, need: nat) { FirstFit(m.Low(), m.minors, m.High(), need, 0) != None }

  // The least number of pages, but not below the minimum, that takes a block of this size with both headers.
  predicate LeastPages(st: nat, size: nat) {
    && st >= PAGE_COUNT && size + MAJOR_HEADER + MINOR_HEADER <= st * PAGE_SIZE
    && (st == PAGE_COUNT || (st - 1) * PAGE_SIZE < size + MAJOR_HEADER + MINOR_HEADER)
  }

  function PagesNeeded(size: nat): (st: nat)
    ensures LeastPages(st, size) && forall n :: LeastPages(n, size) ==> n == st
  {
    var n := (size + MAJOR_HEADER + MINOR_HEADER + PAGE_SIZE - 1) / PAGE_SIZE;
    if n < PAGE_COUNT then PAGE_COUNT else n
  }

  // How malloc chose: among these majors it began at `first`, and took gap `gap` of major `at`; the best
  // bet had `best` bytes free then.
  datatype Choice = Choice(ms: seq<Major>, first: nat, at: nat, gap: nat, best: int)

  class Heap {
    const mem: array<byte>
    const phys: PhysMem.Pages
    var majors: seq<Major>           // from l_memRoot on
    var bestBet: Option<nat>         // l_bestBet, by address
    var headers: map<nat, nat>       // live headers: the address of their block field's major
    var lAllocated: int
    var lInuse: int
    var warningCount: nat
    var errorCount: nat

    ghost function Repr(): set<object> { {this, mem, phys, phys.bitmap} }

    ghost predicate OwnsPages(m: Major)
      reads phys.bitmap
    {
      m.addr == phys.Address(m.block) && PhysMem.All(phys.bitmap[..], m.block, m.pages, true)
    }

    ghost predicate PagesOk()
      reads this`majors, phys, phys.bitmap
    {
      && phys.Valid() && phys.Address(phys.bitmap.Length) <= mem.Length
      && forall i :: 0 <= i < |majors| ==> OwnsPages(majors[i])
    }

    ghost predicate TagsOk()
      reads this`majors, mem
    {
      forall x :: x in Blocks(majors) ==> Tagged(mem[..], x)
    }

    ghost predicate BetOk()
      reads this`majors, this`bestBet
    {
      bestBet != None ==> exists i :: 0 <= i < |majors| && majors[i].addr == bestBet.value
    }

    ghost predicate TotalsOk()
      reads this`majors, this`lAllocated, this`lInuse
    {
      lAllocated == TotalSize(majors) && lInuse == TotalInUse(majors)
    }

    // No linked major is empty, but for one that malloc has just appended.
    ghost predicate NoneEmpty(grown: bool)
      reads this`majors
    {
      forall i :: 0 <= i < |majors| && !(grown && i == |majors| - 1) ==> majors[i].minors != []
    }

    ghost predicate Inv(grown: bool)
      reads Repr()
    {
      && MajorsOk(majors) && HeadersOk(majors, headers) && PagesOk() && TagsOk() && BetOk() && TotalsOk()
      && NoneEmpty(grown)
    }

    ghost predicate Valid()
      reads Repr()
    {
      Inv(false)
    }

    // The bytes of free pages and of linked majors together: no operation changes them.
    ghost function Budget(): int
      reads this`lAllocated, phys`freePages
    {
      phys.freePages * PAGE_SIZE + lAllocated
    }

    constructor (mem: array<byte>, phys: PhysMem.Pages)
      requires phys.Valid() && phys.Address(phys.bitmap.Length) <= mem.Length
      ensures Valid() && this.mem == mem && this.phys == phys && majors == []
    {
      this.mem, this.phys := mem, phys;
      majors, bestBet, headers := [], None, map[];
      lAllocated, lInuse, warningCount, errorCount := 0, 0, 0, 0;
    }

    // allocate_new_page, and linking what it returns behind the last major.
    method Grow(size: nat) returns (ok: bool)
      requires Inv(false)
      modifies this`majors, this`lAllocated, this`warningCount, phys, phys.bitmap
      ensures Inv(ok) && Budget() == old(Budget())
      ensures phys.asked == old(phys.asked) + 1 && phys.refused == old(phys.refused) + if ok then 0 else 1
      ensures !ok ==> majors == old(majors) && phys.bitmap[..] == old(phys.bitmap[..])
      ensures warningCount == old(warningCount) + if ok then 0 else 1
      ensures ok ==> |majors| == |old(majors)| + 1 && majors[..|old(majors)|] == old(majors)
      ensures ok ==> var m := majors[|majors| - 1];
                     m.minors == [] && m.usage == MAJOR_HEADER && size + MINOR_HEADER + m.usage <= m.Size()
                     && LeastPages(m.pages, size)
      ensures Blocks(majors) == Blocks(old(majors))
      ensures ok <==> PhysMem.Grant(old(phys.State()), PagesNeeded(size)) != None
    {
      hide MajorsOk, HeadersOk, MajorOk, MajorsApart, Blocks, TotalSize, TotalInUse, PhysMem.Marked, PhysMem.All;
      hide PhysMem.Grant, PagesNeeded, PhysMem.Search, PhysMem.Apply;
      var st := PagesFor(size);
      var got;
      ghost var block;
      got, block := phys.Alloc(st);
      if got == None {
        warningCount := warningCount + 1;
        return false;
      }
      Multiples.Scaled(block, PAGE_SIZE);
      var m := Major(got.value, (got.value - phys.offset) / PAGE_SIZE, st, MAJOR_HEADER, []);
      NewMajorApart(m);
      AddEmpty(majors, m, headers);
      AppendEmptyBlocks(majors, m);
      lAllocated := lAllocated + m.Size();
      majors := majors + [m];
      ok := true;
      BetStands();
    }

    twostate lemma BetStands()
      requires old(BetOk()) && bestBet == old(bestBet) && |majors| >= |old(majors)|
      requires forall i :: 0 <= i < |old(majors)| ==> majors[i].addr == old(majors)[i].addr
      ensures BetOk()
    {
    }

    // The pages that were clear before are in no linked major.
    twostate lemma NewMajorApart(m: Major)
      requires old(MajorsOk(majors) && PagesOk()) && majors == old(majors) && m.minors == [] && m.usage == MAJOR_HEADER
      requires m.pages > 0 && m.addr == phys.Address(m.block) && m.Low() <= m.High() && phys.Valid()
      requires PhysMem.All(old(phys.bitmap[..]), m.block, m.pages, false)
      requires phys.bitmap[..] == PhysMem.Marked(old(phys.bitmap[..]), m.block, m.pages, true)
      ensures MajorOk(m) && OwnsPages(m) && PagesOk()
      ensures forall i :: 0 <= i < |majors| ==> MajorsApart(majors[i], m)
    {
      forall i | 0 <= i < |majors| ensures MajorsApart(majors[i], m) && OwnsPages(majors[i]) {
        var o := majors[i];
        assert old(OwnsPages(o)) && MajorOk(o);
        PhysMem.RunsApart(old(phys.bitmap[..]), o.block, o.pages, m.block, m.pages);
      }
    }

    // The number of pages for a major that has to hold a block of this size.
    method PagesFor(size: nat) returns (st: nat)
      ensures LeastPages(st, size) && st == PagesNeeded(size)
    {
      st := size + MAJOR_HEADER + MINOR_HEADER;
      if st % PAGE_SIZE == 0 { st := st / PAGE_SIZE; } else { st := st / PAGE_SIZE + 1; }
      if st < PAGE_COUNT { st := PAGE_COUNT; }
    }

    // Cases 2, 3 and 4 of malloc: the first gap of a major that takes the block with its header.
    method FindGap(m: Major, size: nat) returns (g: Option<nat>)
      requires MajorOk(m) && (m.minors == [] ==> Room(m, size + MINOR_HEADER))
      ensures g == FirstFit(m.Low(), m.minors, m.High(), size + MINOR_HEADER, 0)
    {
      var lo, hi, ms, need := m.Low(), m.High(), m.minors, size + MINOR_HEADER;
      if ms == [] { return Some(0); }
      assert GapStart(lo, ms, 0) <= GapEnd(hi, ms, 0);
      if ms[0].addr - m.addr - MAJOR_HEADER >= need { return Some(0); }
      var i := 0;
      while i < |ms|
        invariant i <= |ms|
        invariant FirstFit(lo, ms, hi, need, 0) == if i < |ms| then FirstFit(lo, ms, hi, need, i + 1) else None
      {
        assert GapStart(lo, ms, i + 1) <= GapEnd(hi, ms, i + 1);
        if i == |ms| - 1 {
          if m.addr + m.Size() - ms[i].addr - MINOR_HEADER - ms[i].size >= need { return Some(i + 1); }
        } else {
          if ms[i + 1].addr - ms[i].addr - MINOR_HEADER - ms[i].size >= need { return Some(i + 1); }
        }
        i := i + 1;
      }
      g := None;
    }

    // ALIGN: the payload pointer of a raw address, with its tag.
    method Align(raw: nat) returns (p: nat)
      requires raw + ALIGNMENT + ALIGN_INFO <= mem.Length
      modifies mem
      ensures p == Aligned(raw) && mem[p - 2] as nat == p - raw && mem[p - 1] == 0
      ensures forall a :: 0 <= a < mem.Length && a != p - 2 && a != p - 1 ==> mem[a] == old(mem[a])
    {
      p := raw + ALIGN_INFO;
      var diff := p % ALIGNMENT;
      if diff != 0 {
        diff := ALIGNMENT - diff;
        p := p + diff;
      }
      mem[p - 2], mem[p - 1] := (diff + ALIGN_INFO) as byte, 0;
    }

    // A new block goes into gap g of major k.
    method Place(k: nat, g: nat, size: nat, reqSize: nat, ghost grown: bool) returns (p: nat, ghost x: Minor)
      requires Inv(grown) && k < |majors| && (grown ==> k == |majors| - 1) && size == reqSize + ALIGNMENT + ALIGN_INFO
      requires FirstFit(majors[k].Low(), majors[k].minors, majors[k].High(), size + MINOR_HEADER, 0) == Some(g)
      modifies this`majors, this`headers, this`lInuse, mem
      ensures Inv(false) && |majors| == |old(majors)|
      ensures x.size == size && x.reqSize == reqSize && p == Payload(x) && g <= |old(majors)[k].minors|
      ensures majors == old(majors)[k := WithBlock(old(majors)[k], g, x)]
      ensures x !in Blocks(old(majors)) && Blocks(majors) == Blocks(old(majors)) + {x}
      ensures forall a :: 0 <= a < mem.Length && !(x.addr <= a < End(x)) ==> mem[a] == old(mem[a])
    {
      hide MajorsOk, HeadersOk, MajorOk, Blocks, TotalSize, TotalInUse;
      ghost var was, bytes := majors, mem[..];
      var m := majors[k];
      var at := GapStart(m.Low(), m.minors, g);
      x := Minor(at, size, reqSize);
      FitsIn(k, g, x);
      AddBlock(majors, k, g, x, headers);
      majors := majors[k := m.(minors := Insert(m.minors, g, Minor(at, size, reqSize)),
                               usage := m.usage + size + MINOR_HEADER)];
      headers := headers[at := m.addr];
      lInuse := lInuse + size;
      p := Align(at + MINOR_HEADER);
      PayloadInside(x);
      TagsAdded(was, bytes, x);
      BetStands();
    }

    lemma FitsIn(k: nat, g: nat, x: Minor)
      requires MajorsOk(majors) && PagesOk() && k < |majors|
      requires FirstFit(majors[k].Low(), majors[k].minors, majors[k].High(), x.size + MINOR_HEADER, 0) == Some(g)
      requires g <= |majors[k].minors| && x.addr == GapStart(majors[k].Low(), majors[k].minors, g)
      ensures FitsGap(majors[k], g, x) && End(x) <= mem.Length
    {
      var m := majors[k];
      assert MajorOk(m) && OwnsPages(m);
      FirstFitFits(m.Low(), m.minors, m.High(), x.size + MINOR_HEADER, 0);
      GapVacant(m.Low(), m.minors, m.High(), x.size + MINOR_HEADER, g);
    }

    lemma TagsAdded(was: seq<Major>, bytes: seq<byte>, x: Minor)
      requires MajorsOk(majors) && Blocks(majors) == Blocks(was) + {x} && x !in Blocks(was) && Tagged(mem[..], x)
      requires forall y :: y in Blocks(was) ==> Tagged(bytes, y)
      requires |bytes| == mem.Length
      requires forall a :: 0 <= a < mem.Length && !(x.addr <= a < End(x)) ==> mem[a] == bytes[a]
      ensures TagsOk()
    {
      hide MajorsOk, Blocks, Tagged;
      forall y | y in Blocks(majors) ensures Tagged(mem[..], y) {
        if y != x { TaggedElsewhere(bytes, mem[..], majors, x, y); }
      }
    }

    // Following a pointer to a linked major.
    method MajorAt(addr: nat) returns (k: nat)
      requires exists i :: 0 <= i < |majors| && majors[i].addr == addr
      ensures k < |majors| && majors[k].addr == addr
    {
      k := 0;
      while majors[k].addr != addr
        invariant k < |majors| && exists i :: k <= i < |majors| && majors[i].addr == addr
        decreases |majors| - k
      {
        k := k + 1;
      }
    }

    ghost predicate NoRoom(ms: seq<Major>, need: nat) { forall i :: 0 <= i < |ms| ==> !Room(ms[i], need) }

    // No linked major has room for a block of this size, and the page allocator refuses a new one.
    ghost predicate OutOfMemory(reqSize: nat)
      reads this`majors, phys, phys.bitmap
    {
      var size := reqSize + ALIGNMENT + ALIGN_INFO;
      NoRoom(majors, size + MINOR_HEADER) && PhysMem.Grant(phys.State(), PagesNeeded(size)) == None
    }

    // What malloc did: it made room for block x in some major, perhaps a new one, and gave out p.
    twostate predicate Gave(p: nat, x: Minor, reqSize: nat)
      reads this`majors, mem
    {
      && x.reqSize == reqSize && x.size == reqSize + ALIGNMENT + ALIGN_INFO && p == Payload(x)
      && x !in Blocks(old(majors)) && Blocks(majors) == Blocks(old(majors)) + {x}
      && forall a :: 0 <= a < mem.Length && !(x.addr <= a < End(x)) ==> mem[a] == old(mem[a])
    }

    // The best bet has this much free.
    ghost predicate BetIs(ms: seq<Major>, best: int)
      reads this`bestBet
    {
      if bestBet == None then best == 0
      else exists b :: 0 <= b < |ms| && ms[b].addr == bestBet.value && FreeIn(ms[b]) == best
    }

    // Major i comes before major k for a scan that began at `first`, and may have wrapped around.
    predicate Earlier(i: nat, first: nat, k: nat, wrapped: bool) {
      if wrapped then first <= i || i < k else first <= i < k
    }

    // The majors before major k have no room, and no more free than the best bet.
    ghost predicate Passed(ms: seq<Major>, first: nat, k: nat, wrapped: bool, need: nat, best: int) {
      forall i :: 0 <= i < |ms| && Earlier(i, first, k, wrapped) ==> !Room(ms[i], need) && FreeIn(ms[i]) <= best
    }

    ghost predicate Chose(c: Choice, need: nat)
      reads this`bestBet
    {
      && c.at < |c.ms| && FirstFit(c.ms[c.at].Low(), c.ms[c.at].minors, c.ms[c.at].High(), need, 0) == Some(c.gap)
      && Passed(c.ms, c.first, c.at, c.at < c.first, need, c.best) && BetIs(c.ms, c.best)
    }

    // Where malloc begins: at the best bet, if that has more free than it needs.
    ghost predicate Begins(first: nat, need: nat)
      reads this`majors, this`bestBet
    {
      && (bestBet == None ==> first == 0)
      && forall b :: 0 <= b < |majors| && bestBet == Some(majors[b].addr) ==>
           first == if FreeIn(majors[b]) > need then b else 0
    }

    // The majors are those of before, or a new one behind them is taken.
    twostate predicate Added(new c: Choice, new x: Minor)
      reads this`majors
    {
      && c.at < |c.ms| && c.gap <= |c.ms[c.at].minors|
      && majors == c.ms[c.at := WithBlock(c.ms[c.at], c.gap, x)]
      && (c.ms == old(majors) ||
          (&& c.at == |old(majors)| == |c.ms| - 1 && c.ms[..c.at] == old(majors) && c.ms[c.at].minors == []
           && NoRoom(old(majors), x.size + MINOR_HEADER)))
    }

    // Returns NULL (0) exactly when the page allocator refused; asks it at most once, and only when no
    // linked major has room for the block; changes no page otherwise.
    method Malloc(reqSize: nat) returns (p: nat, ghost x: Minor, ghost c: Choice)
      requires Valid()
      modifies this, mem, phys, phys.bitmap
      ensures Valid() && Budget() == old(Budget())
      ensures phys.refused == old(phys.refused) + if p == 0 then 1 else 0
      ensures p == 0 ==> majors == old(majors) && mem[..] == old(mem[..]) && phys.bitmap[..] == old(phys.bitmap[..])
      ensures p != 0 ==> Gave(p, x, reqSize)
      ensures old(phys.asked) <= phys.asked <= old(phys.asked) + 1
      ensures phys.asked > old(phys.asked) ==>
                NoRoom(old(majors), reqSize + ALIGNMENT + ALIGN_INFO + MINOR_HEADER)
      ensures phys.asked == old(phys.asked) ==>
                |majors| == |old(majors)| && phys.bitmap[..] == old(phys.bitmap[..])
      ensures p == 0 <==> old(OutOfMemory(reqSize))
      ensures p != 0 ==> Chose(c, reqSize + ALIGNMENT + ALIGN_INFO + MINOR_HEADER) && Added(c, x)
      ensures p != 0 ==> old(Begins(c.first, reqSize + ALIGNMENT + ALIGN_INFO + MINOR_HEADER))
    {
      hide MajorsOk, HeadersOk, PagesOk, TagsOk, TotalsOk, NoneEmpty, Blocks, Room, FirstFit;
      hide PhysMem.Grant, PagesNeeded, Chose;
      p, x, c := 0, Minor(0, 0, 0), Choice([], 0, 0, 0, 0);
      var size := reqSize + ALIGNMENT + ALIGN_INFO;
      if majors == [] {
        var ok := Grow(size);
        if !ok { return; }
      }
      var k, startedBet, bestSize := 0, false, 0;
      if bestBet != None {
        var b := MajorAt(bestBet.value);
        UsageFits(b);
        forall i | 0 <= i < |majors| && majors[i].addr == majors[b].addr ensures i == b { OneAddress(i, b); }
        bestSize := majors[b].Size() - majors[b].usage;
        if bestSize > size + MINOR_HEADER { k, startedBet := b, true; }
      }
      p, x, c := Scan(reqSize, size, k, startedBet, bestSize, phys.asked > old(phys.asked));
    }

    // The loop of malloc, over all majors, and the block in the gap that it finds.
    method Scan(reqSize: nat, size: nat, first: nat, atBet: bool, best: int, ghost rooted: bool)
      returns (p: nat, ghost x: Minor, ghost c: Choice)
      requires Inv(rooted) && first < |majors| && size == reqSize + ALIGNMENT + ALIGN_INFO && (!atBet ==> first == 0)
      requires rooted ==> Rooted(size + MINOR_HEADER) && !atBet
      requires BetIs(majors, best)
      modifies this, mem, phys, phys.bitmap
      ensures Valid() && Budget() == old(Budget())
      ensures phys.refused == old(phys.refused) + if p == 0 then 1 else 0
      ensures p == 0 ==> majors == old(majors) && mem[..] == old(mem[..]) && phys.bitmap[..] == old(phys.bitmap[..])
      ensures p != 0 ==> Gave(p, x, reqSize)
      ensures old(phys.asked) <= phys.asked <= old(phys.asked) + 1
      ensures p == 0 ==> phys.asked > old(phys.asked)
      ensures phys.asked > old(phys.asked) ==> !rooted && NoRoom(old(majors), size + MINOR_HEADER)
      ensures phys.asked == old(phys.asked) ==>
                |majors| == |old(majors)| && phys.bitmap[..] == old(phys.bitmap[..])
      ensures p == 0 <==> !rooted && old(OutOfMemory(reqSize))
      ensures p != 0 ==> Chose(c, size + MINOR_HEADER) && Added(c, x) && c.first == first
    {
      hide Inv, Budget, Blocks, Room, FirstFit, BetIs, Chose, Added, NoRoom, OutOfMemory, MajorsOk;
      p, x := 0, Minor(0, 0, 0);
      var k, g;
      ghost var grown;
      k, g, c, grown := FindPlace(reqSize, size, first, atBet, best, rooted);
      if g != None {
        p, x := Place(k, g.value, size, reqSize, grown);
        IsAdded(c, x);
        PayloadPositive(x);
      }
    }

    method FindPlace(reqSize: nat, size: nat, first: nat, atBet: bool, best: int, ghost rooted: bool)
      returns (k: nat, g: Option<nat>, ghost c: Choice, ghost grown: bool)
      requires Inv(rooted) && first < |majors| && size == reqSize + ALIGNMENT + ALIGN_INFO && (!atBet ==> first == 0)
      requires rooted ==> Rooted(size + MINOR_HEADER) && !atBet
      requires BetIs(majors, best)
      modifies this`majors, this`bestBet, this`lAllocated, this`warningCount, phys, phys.bitmap
      ensures Inv(grown) && Budget() == old(Budget()) && Blocks(majors) == Blocks(old(majors))
      ensures phys.refused == old(phys.refused) + if g == None then 1 else 0
      ensures old(phys.asked) <= phys.asked <= old(phys.asked) + 1
      ensures g == None ==> !grown && majors == old(majors) && phys.bitmap[..] == old(phys.bitmap[..])
      ensures g == None ==> phys.asked > old(phys.asked)
      ensures phys.asked > old(phys.asked) ==> !rooted && NoRoom(old(majors), size + MINOR_HEADER)
      ensures phys.asked == old(phys.asked) ==> majors == old(majors) && phys.bitmap[..] == old(phys.bitmap[..])
      ensures g == None <==> !rooted && old(OutOfMemory(reqSize))
      ensures g != None ==>
                && k < |majors| && (grown ==> k == |majors| - 1)
                && FirstFit(majors[k].Low(), majors[k].minors, majors[k].High(), size + MINOR_HEADER, 0) == g
                && Chose(c, size + MINOR_HEADER) && c.ms == majors && c.first == first && c.at == k && c.gap == g.value
                && (majors == old(majors) ||
                    (k == |old(majors)| == |majors| - 1 && majors[..k] == old(majors) && majors[k].minors == []
                     && NoRoom(old(majors), size + MINOR_HEADER)))
    {
      hide Inv, MajorsOk, Budget, Blocks, Room, FirstFit, PhysMem.Grant, PagesNeeded, BetIs, Passed, Chose;
      hide OutOfMemory, NoRoom, PhysMem.Apply;
      ghost var full := OutOfMemory(reqSize);
      FullIs(reqSize);
      SomeRoom(majors, size + MINOR_HEADER);
      c, g := Choice([], first, 0, 0, 0), None;
      NonePassed(majors, first, size + MINOR_HEADER, best);
      k := first;
      var startedBet, bestSize := atBet, best;
      ghost var asked := false;
      grown := rooted;
      var need := size + MINOR_HEADER;
      while true
        invariant 0 <= k < |majors| && Inv(grown)
        invariant grown ==> k == |majors| - 1 && !startedBet && FreeIn(majors[k]) >= need && majors[k].minors == []
        invariant Blocks(majors) == Blocks(old(majors)) && Budget() == old(Budget())
        invariant if asked then grown && |majors| == |old(majors)| + 1 else majors == old(majors) && grown == rooted
        invariant phys.asked == old(phys.asked) + if asked then 1 else 0
        invariant phys.refused == old(phys.refused) && (!asked ==> phys.State() == old(phys.State()))
        invariant asked ==> !full && !rooted && NoRoom(old(majors), need)
        invariant g == None && majors[..|old(majors)|] == old(majors)
        invariant (startedBet ==> atBet) && (!atBet || startedBet ==> first <= k) && k <= |old(majors)|
        invariant BetIs(majors, bestSize) && Passed(old(majors), first, k, atBet && !startedBet, need, bestSize)
        decreases !grown, startedBet, |majors| - k
      {
        MajorsFine(grown);
        UsageFits(k);
        var diff := majors[k].Size() - majors[k].usage;
        ghost var was := bestSize;
        bestSize := LookAt(k, diff, bestSize, grown);
        PassedMore(old(majors), first, k, atBet && !startedBet, need, was, bestSize);
        if diff < need {
          SkipIsSafe(k, need);
          PassOne(majors, first, k, atBet && !startedBet, need, bestSize);
          if k + 1 < |majors| { k := k + 1; continue; }
          if startedBet {
            PassedAround(majors, first, need, bestSize);
            k, startedBet := 0, false;
            continue;
          }
          asked := true;
          var ok := GrowBehind(size, first, atBet, bestSize);
          if !ok { return; }
          grown := true;
          k := k + 1;
        }
        g := GapIn(k, size, grown);
        if g != None {
          c := Choice(majors, first, k, g.value, bestSize);
          IsChosen(c, need, old(majors), atBet && !startedBet);
          return;
        }
        PassOne(majors, first, k, atBet && !startedBet, need, bestSize);
        if k + 1 == |majors| {
          if startedBet {
            PassedAround(majors, first, need, bestSize);
            k, startedBet := 0, false;
            continue;
          }
          asked := true;
          var ok := GrowBehind(size, first, atBet, bestSize);
          if !ok { return; }
          grown := true;
        }
        k := k + 1;
      }
    }

    // All majors are passed, and a new one is asked for.
    method GrowBehind(size: nat, ghost first: nat, ghost atBet: bool, ghost best: int) returns (ok: bool)
      requires Inv(false) && BetIs(majors, best) && (!atBet ==> first == 0)
      requires Passed(majors, first, |majors|, atBet, size + MINOR_HEADER, best)
      modifies this`majors, this`lAllocated, this`warningCount, phys, phys.bitmap
      ensures Inv(ok) && Budget() == old(Budget()) && BetIs(majors, best) && Blocks(majors) == Blocks(old(majors))
      ensures phys.asked == old(phys.asked) + 1 && phys.refused == old(phys.refused) + if ok then 0 else 1
      ensures !ok ==> majors == old(majors) && phys.bitmap[..] == old(phys.bitmap[..])
      ensures ok ==> |majors| == |old(majors)| + 1 && majors[..|old(majors)|] == old(majors)
      ensures ok ==> var m := majors[|majors| - 1]; m.minors == [] && FreeIn(m) >= size + MINOR_HEADER
      ensures NoRoom(old(majors), size + MINOR_HEADER)
      ensures ok <==> PhysMem.Grant(old(phys.State()), PagesNeeded(size)) != None
    {
      hide Inv, Budget, BetIs, Passed, NoRoom, Blocks, PhysMem.Grant, PagesNeeded, LeastPages;
      AllPassed(majors, first, atBet, size + MINOR_HEADER, best);
      ok := Grow(size);
      if ok { BetGrows(old(majors), best); }
    }

    // malloc remembers a major with more free than the best bet.
    method LookAt(k: nat, diff: int, best: int, ghost grown: bool) returns (now: int)
      requires Inv(grown) && k < |majors| && diff == FreeIn(majors[k]) && BetIs(majors, best)
      modifies this`bestBet
      ensures Inv(grown) && BetIs(majors, now) && diff <= now && best <= now
    {
      hide Inv;
      now := best;
      if now < diff {
        BetOn(k, grown);
        now := diff;
      }
    }

    lemma FullIs(reqSize: nat)
      ensures OutOfMemory(reqSize) <==>
              && NoRoom(majors, reqSize + ALIGNMENT + ALIGN_INFO + MINOR_HEADER)
              && PhysMem.Grant(phys.State(), PagesNeeded(reqSize + ALIGNMENT + ALIGN_INFO)) == None
    {
      hide NoRoom, PagesNeeded, PhysMem.Grant;
    }

    lemma SomeRoom(ms: seq<Major>, need: nat)
      ensures NoRoom(ms, need) ==> forall i :: 0 <= i < |ms| ==> !Room(ms[i], need)
    {
      hide Room;
    }

    lemma NonePassed(ms: seq<Major>, first: nat, need: nat, best: int)
      ensures Passed(ms, first, first, false, need, best)
    {
    }

    lemma PassedMore(ms: seq<Major>, first: nat, k: nat, wrapped: bool, need: nat, best: int, now: int)
      requires Passed(ms, first, k, wrapped, need, best) && best <= now
      ensures Passed(ms, first, k, wrapped, need, now)
    {
      hide Room;
    }

    lemma PassOne(ms: seq<Major>, first: nat, k: nat, wrapped: bool, need: nat, best: int)
      requires Passed(ms, first, k, wrapped, need, best) && k < |ms| && !Room(ms[k], need) && FreeIn(ms[k]) <= best
      ensures Passed(ms, first, k + 1, wrapped, need, best)
    {
      hide Room;
    }

    lemma PassedAround(ms: seq<Major>, first: nat, need: nat, best: int)
      requires Passed(ms, first, |ms|, false, need, best)
      ensures Passed(ms, first, 0, true, need, best)
    {
      hide Room;
    }

    lemma AllPassed(ms: seq<Major>, first: nat, wrapped: bool, need: nat, best: int)
      requires Passed(ms, first, |ms|, wrapped, need, best) && (!wrapped ==> first == 0)
      ensures NoRoom(ms, need)
    {
      hide Room;
    }

    lemma BetGrows(was: seq<Major>, best: int)
      requires BetIs(was, best) && |majors| == |was| + 1 && majors[..|was|] == was
      ensures BetIs(majors, best)
    {
      if bestBet != None {
        var b :| 0 <= b < |was| && was[b].addr == bestBet.value && FreeIn(was[b]) == best;
        assert majors[b] == was[b];
      }
    }

    // The majors of before are the first of c.ms, or all.
    lemma IsChosen(c: Choice, need: nat, was: seq<Major>, wrapped: bool)
      requires c.at < |c.ms| && |was| <= |c.ms| && c.ms[..|was|] == was && c.at <= |was|
      requires FirstFit(c.ms[c.at].Low(), c.ms[c.at].minors, c.ms[c.at].High(), need, 0) == Some(c.gap)
      requires Passed(was, c.first, c.at, wrapped, need, c.best) && BetIs(c.ms, c.best)
      requires (c.at < |was| ==> Room(c.ms[c.at], need)) && (|was| < |c.ms| ==> c.at == |was|)
      requires c.first <= |was| && (!wrapped ==> c.first <= c.at)
      ensures Chose(c, need)
    {
      hide Room, FirstFit, BetIs;
      assert forall i :: 0 <= i < |was| ==> c.ms[i] == was[i];
    }

    twostate lemma IsAdded(new c: Choice, new x: Minor)
      requires c.at < |c.ms| && c.gap <= |c.ms[c.at].minors|
      requires majors == c.ms[c.at := WithBlock(c.ms[c.at], c.gap, x)]
      requires c.ms == old(majors) ||
               (&& c.at == |old(majors)| == |c.ms| - 1 && c.ms[..c.at] == old(majors) && c.ms[c.at].minors == []
                && NoRoom(old(majors), x.size + MINOR_HEADER))
      ensures Added(c, x)
    {
    }

    // The first major of all has just been obtained.
    ghost predicate Rooted(need: nat)
      reads this`majors
    {
      |majors| == 1 && majors[0].minors == [] && FreeIn(majors[0]) >= need
    }

    function FreeIn(m: Major): int { m.Size() - m.usage }

    lemma UsageFits(k: nat)
      requires MajorsOk(majors) && k < |majors|
      ensures majors[k].usage <= majors[k].Size()
    {
      var m := majors[k];
      assert MajorOk(m);
      GapWithinFree(m.Low(), m.minors, m.High(), 0);
      assert GapStart(m.Low(), m.minors, 0) <= GapEnd(m.High(), m.minors, 0);
    }

    // The gap that cases 2 to 5 of malloc find in a major that is not passed over.
    method GapIn(k: nat, size: nat, ghost grown: bool) returns (g: Option<nat>)
      requires Inv(grown) && k < |majors| && FreeIn(majors[k]) >= size + MINOR_HEADER
      ensures Inv(grown) && (g == None <==> !Room(majors[k], size + MINOR_HEADER))
      ensures g == FirstFit(majors[k].Low(), majors[k].minors, majors[k].High(), size + MINOR_HEADER, 0)
      ensures majors[k].minors == [] ==> g != None
    {
      hide HeadersOk, PagesOk, TagsOk, BetOk, TotalsOk, NoneEmpty;
      EmptyHasRoom(k, size + MINOR_HEADER);
      hide MajorsOk;
      RoomIsFit(k, size + MINOR_HEADER);
      g := FindGap(majors[k], size);
    }

    method BetOn(k: nat, ghost grown: bool)
      requires Inv(grown) && k < |majors|
      modifies this`bestBet
      ensures Inv(grown) && bestBet == Some(majors[k].addr)
    {
      hide MajorsOk, HeadersOk, PagesOk, TagsOk, TotalsOk, NoneEmpty;
      bestBet := Some(majors[k].addr);
    }

    lemma MajorsFine(grown: bool)
      requires Inv(grown)
      ensures MajorsOk(majors)
    {
    }

    // Case 1 passes over no room.
    lemma SkipIsSafe(k: nat, need: nat)
      requires MajorsOk(majors) && k < |majors| && FreeIn(majors[k]) < need
      ensures !Room(majors[k], need)
    {
      assert MajorOk(majors[k]);
      NoRoomNoFit(majors[k].Low(), majors[k].minors, majors[k].High(), need, 0);
    }

    // Case 2 need not check.
    lemma EmptyHasRoom(k: nat, need: nat)
      requires MajorsOk(majors) && k < |majors| && FreeIn(majors[k]) >= need
      ensures MajorOk(majors[k]) && (majors[k].minors == [] ==> Room(majors[k], need))
    {
      assert MajorOk(majors[k]);
    }

    lemma RoomIsFit(k: nat, need: nat)
      requires k < |majors|
      ensures Room(majors[k], need) <==> FirstFit(majors[k].Low(), majors[k].minors, majors[k].High(), need, 0) != None
    {
    }

    // ---- free ----

    // Following a pointer to a live minor of major k.
    method MinorAt(k: nat, addr: nat) returns (g: nat)
      requires k < |majors| && exists i :: 0 <= i < |majors[k].minors| && majors[k].minors[i].addr == addr
      ensures g < |majors[k].minors| && majors[k].minors[g].addr == addr
    {
      g := 0;
      while majors[k].minors[g].addr != addr
        invariant g < |majors[k].minors| && exists i :: g <= i < |majors[k].minors| && majors[k].minors[i].addr == addr
        decreases |majors[k].minors| - g
      {
        g := g + 1;
      }
    }

    // Where the header of a live block leads.
    lemma HeaderLeads(a: nat) returns (k: nat, g: nat)
      requires MajorsOk(majors) && HeadersOk(majors, headers) && a in headers
      ensures k < |majors| && g < |majors[k].minors| && majors[k].minors[g].addr == a && majors[k].addr == headers[a]
      ensures forall i :: 0 <= i < |majors| && majors[i].addr == headers[a] ==> i == k
    {
      hide MajorsOk, Blocks;
      k, g := HomeOf(a);
      assert Homed(majors[k], headers);
      forall i | 0 <= i < |majors| && majors[i].addr == headers[a] ensures i == k { OneAddress(i, k); }
    }

    lemma HomeOf(a: nat) returns (k: nat, g: nat)
      requires a in Addrs(Blocks(majors))
      ensures k < |majors| && g < |majors[k].minors| && majors[k].minors[g].addr == a
    {
      var x :| x in Blocks(majors) && x.addr == a;
      k :| 0 <= k < |majors| && x in majors[k].minors;
      g :| 0 <= g < |majors[k].minors| && majors[k].minors[g] == x;
    }

    lemma OneAddress(i: nat, k: nat)
      requires MajorsOk(majors) && i < |majors| && k < |majors| && majors[i].addr == majors[k].addr
      ensures i == k
    {
      assert MajorOk(majors[i]) && MajorOk(majors[k]);
      assert i < k ==> MajorsApart(majors[i], majors[k]);
      assert k < i ==> MajorsApart(majors[k], majors[i]);
    }

    // The block whose header free finds behind p.
    ghost predicate Found(p: nat, x: Minor)
      requires ALIGN_INFO <= p <= mem.Length
      reads this`majors, mem
    {
      x in Blocks(majors) && x.addr + MINOR_HEADER == Unaligned(mem[..], p)
    }

    lemma OnlyOneFound(p: nat, x: Minor)
      requires MajorsOk(majors) && TagsOk() && ALIGN_INFO <= p <= mem.Length && Found(p, x) && p == Payload(x)
      ensures forall z :: Found(p, z) ==> z == x
    {
      forall z | Found(p, z) ensures z == x { FindsItsBlock(p, x, z); }
    }

    // What malloc gave out is found again.
    lemma FindsItsBlock(p: nat, x: Minor, y: Minor)
      requires MajorsOk(majors) && TagsOk() && x in Blocks(majors) && p == Payload(x)
      requires ALIGN_INFO <= p <= mem.Length && Found(p, y)
      ensures y == x
    {
      UnalignUndoesAlign(mem[..], x);
      if x != y { BlocksApart(majors, x, y); }
    }

    method Free(p: nat)
      requires Valid() && p <= mem.Length && p != 1
      modifies this`majors, this`bestBet, this`headers, this`lAllocated, this`lInuse, this`warningCount, this`errorCount
      modifies phys`freePages, phys.bitmap
      ensures Valid() && Budget() == old(Budget())
      ensures p != 0 ==> forall x :: old(Found(p, x)) ==> Blocks(majors) == Blocks(old(majors)) - {x}
      ensures p == 0 || (forall x :: !old(Found(p, x))) ==> majors == old(majors)
    {
      hide MajorsOk, HeadersOk, PagesOk, TagsOk, TotalsOk, NoneEmpty, BetOk, Blocks;
      if p == 0 {
        warningCount := warningCount + 1;
        return;
      }
      var a := Unaligned(mem[..], p) - MINOR_HEADER;
      HeadersAreBlocks();
      if a < 0 || a !in headers {
        errorCount := errorCount + 1;
        return;
      }
      ghost var i, j := HeaderLeads(a);
      var k := MajorAt(headers[a]);
      var g := MinorAt(k, a);
      InBlocks(majors, k, majors[k].minors[g]);
      BlockAt(majors[k].minors[g]);
      assert Found(p, majors[k].minors[g]);
      Unlink(k, g);
    }

    lemma HeadersAreBlocks()
      requires HeadersOk(majors, headers)
      ensures forall x :: x in Blocks(majors) ==> x.addr in headers
    {
      forall x | x in Blocks(majors) ensures x.addr in headers { assert x.addr in Addrs(Blocks(majors)); }
    }

    lemma BlockAt(x: Minor)
      requires MajorsOk(majors) && x in Blocks(majors)
      ensures forall y :: y in Blocks(majors) && y.addr == x.addr ==> y == x
    {
      forall y | y in Blocks(majors) && y.addr == x.addr ensures y == x {
        if y != x { BlocksApart(majors, x, y); }
      }
    }

    // The part of free after the checks.
    method Unlink(k: nat, g: nat)
      requires Valid() && k < |majors| && g < |majors[k].minors|
      modifies this`majors, this`bestBet, this`headers, this`lAllocated, this`lInuse, phys`freePages, phys.bitmap
      ensures Valid() && Budget() == old(Budget())
      ensures Blocks(majors) == Blocks(old(majors)) - {old(majors)[k].minors[g]}
    {
      hide MajorsOk, HeadersOk, TagsOk, Blocks, TotalSize, TotalInUse;
      var maj, min := majors[k], majors[k].minors[g];
      DropBlock(majors, k, g, headers);
      lInuse := lInuse - min.size;
      majors := majors[k := maj.(minors := Remove(maj.minors, g), usage := maj.usage - (min.size + MINOR_HEADER))];
      headers := headers - {min.addr};
      TagsStand();
      BetStands();
      if majors[k].minors == [] {
        Release(k);
      } else if bestBet != None {
        var b := MajorAt(bestBet.value);
        var bestSize := majors[b].Size() - majors[b].usage;
        var majSize := majors[k].Size() - majors[k].usage;
        if majSize > bestSize { bestBet := Some(maj.addr); }
      }
    }

    twostate lemma TagsStand()
      requires old(TagsOk()) && mem[..] == old(mem[..]) && Blocks(majors) <= Blocks(old(majors))
      ensures TagsOk()
    {
    }

    // A major whose last block went is taken off the list and given back.
    method Release(k: nat)
      requires MajorsOk(majors) && HeadersOk(majors, headers) && PagesOk() && TagsOk() && BetOk() && TotalsOk()
      requires k < |majors| && majors[k].minors == [] && forall i :: 0 <= i < |majors| && i != k ==>
                majors[i].minors != []
      modifies this`majors, this`bestBet, this`lAllocated, phys`freePages, phys.bitmap
      ensures Valid() && Blocks(majors) == Blocks(old(majors)) && Budget() == old(Budget())
    {
      hide MajorsOk, HeadersOk, TagsOk, Blocks, TotalSize, TotalInUse;
      var maj := majors[k];
      DropEmpty(majors, k, headers);
      OthersKeepPages(k);
      if bestBet == Some(maj.addr) { bestBet := None; }
      majors := majors[..k] + majors[k + 1..];
      lAllocated := lAllocated - maj.Size();
      TagsStand();
      BetShrinks(k);
      GiveBack(maj, k);
    }

    twostate lemma BetShrinks(k: nat)
      requires old(BetOk()) && k < |old(majors)| && majors == old(majors)[..k] + old(majors)[k + 1..]
      requires bestBet == None || (bestBet == old(bestBet) && bestBet.value != old(majors)[k].addr)
      ensures BetOk()
    {
      if bestBet != None {
        var i :| 0 <= i < |old(majors)| && old(majors)[i].addr == bestBet.value;
        assert majors[if i < k then i else i - 1].addr == bestBet.value;
      }
    }

    method GiveBack(maj: Major, ghost k: nat)
      requires PagesOk() && OwnsPages(maj)
      requires forall i :: 0 <= i < |majors| ==>
                 majors[i].block + majors[i].pages <= maj.block || maj.block + maj.pages <= majors[i].block
      modifies phys`freePages, phys.bitmap
      ensures PagesOk() && phys.freePages == old(phys.freePages) + maj.pages
    {
      Multiples.Scaled(maj.block, PAGE_SIZE);
      phys.Free(maj.pages, maj.addr);
      forall i | 0 <= i < |majors| ensures OwnsPages(majors[i]) { assert old(OwnsPages(majors[i])); }
    }

    lemma OthersKeepPages(k: nat)
      requires MajorsOk(majors) && PagesOk() && k < |majors|
      ensures forall i :: 0 <= i < |majors| && i != k ==>
                || majors[i].block + majors[i].pages <= majors[k].block
                || majors[k].block + majors[k].pages <= majors[i].block
    {
      forall i | 0 <= i < |majors| && i != k
        ensures || majors[i].block + majors[i].pages <= majors[k].block
                || majors[k].block + majors[k].pages <= majors[i].block
      {
        assert OwnsPages(majors[i]) && OwnsPages(majors[k]);
        assert i < k ==> MajorsApart(majors[i], majors[k]);
        assert k < i ==> MajorsApart(majors[k], majors[i]);
      }
    }

    // ---- realloc ----

    // liballoc_memcpy: four bytes at a time, then one at a time.
    method Memcpy(dst: nat, src: nat, n: nat)
      requires dst + n <= mem.Length && src + n <= mem.Length && (dst + n <= src || src + n <= dst)
      modifies mem
      ensures forall a :: dst <= a < dst + n ==> mem[a] == old(mem[a - dst + src])
      ensures forall a :: 0 <= a < mem.Length && !(dst <= a < dst + n) ==> mem[a] == old(mem[a])
    {
      var i := 0;
      while n - i >= 4
        invariant i <= n && forall a :: dst <= a < dst + i ==> mem[a] == old(mem[a - dst + src])
        invariant forall a :: 0 <= a < mem.Length && !(dst <= a < dst + i) ==> mem[a] == old(mem[a])
      {
        mem[dst + i], mem[dst + i + 1], mem[dst + i + 2], mem[dst + i + 3] :=
          mem[src + i], mem[src + i + 1], mem[src + i + 2], mem[src + i + 3];
        i := i + 4;
      }
      while i < n
        invariant i <= n && forall a :: dst <= a < dst + i ==> mem[a] == old(mem[a - dst + src])
        invariant forall a :: 0 <= a < mem.Length && !(dst <= a < dst + i) ==> mem[a] == old(mem[a])
      {
        mem[dst + i] := mem[src + i];
        i := i + 1;
      }
    }

    lemma PayloadInMem(z: Minor)
      requires MajorsOk(majors) && TagsOk() && z in Blocks(majors)
      ensures ALIGN_INFO <= Payload(z) && z.addr < Payload(z) - 1 && Payload(z) + z.reqSize <= End(z) <= mem.Length
    {
      SizeOk(majors, z);
      PayloadInside(z);
      assert Tagged(mem[..], z);
    }

    // When no byte outside block x changes, every other payload keeps its contents.
    twostate lemma OthersKept(new x: Minor, z: Minor)
      requires MajorsOk(majors) && TagsOk() && x in Blocks(majors) && z in Blocks(majors) && z != x
      requires forall a :: 0 <= a < mem.Length && !(x.addr <= a < End(x)) ==> mem[a] == old(mem[a])
      ensures Payload(z) + z.reqSize <= mem.Length
      ensures forall a :: Payload(z) <= a < Payload(z) + z.reqSize ==> mem[a] == old(mem[a])
    {
      PayloadInMem(z);
      BlocksApart(majors, x, z);
    }

    // The copy of realloc: from block x into the larger block y.
    method Copy(q: nat, p: nat, realSize: nat, ghost x: Minor, ghost y: Minor)
      requires Valid() && x in Blocks(majors) && y in Blocks(majors) && x != y && realSize == x.reqSize <= y.reqSize
      requires p == Payload(x) && q == Payload(y) && p + realSize <= mem.Length && q + realSize <= mem.Length
      modifies mem
      ensures Valid()
      ensures forall a :: q <= a < q + realSize ==> mem[a] == old(mem[a - q + p])
      ensures forall a :: 0 <= a < mem.Length && !(y.addr <= a < End(y)) ==> mem[a] == old(mem[a])
    {
      hide MajorsOk, HeadersOk, Blocks, Payload;
      PayloadInMem(x);
      PayloadInMem(y);
      BlocksApart(majors, x, y);
      ghost var bytes := mem[..];
      assert Tagged(bytes, y);
      Memcpy(q, p, realSize);
      assert Tagged(mem[..], y);
      forall z | z in Blocks(majors) ensures Tagged(mem[..], z) {
        if z != y { TaggedElsewhere(bytes, mem[..], majors, y, z); }
      }
    }

    // What a caller does with its block: a write to the bytes it asked for. It meets no header, no tag
    // and no other block.
    method Store(a: nat, value: byte, ghost x: Minor)
      requires Valid() && x in Blocks(majors) && Payload(x) <= a < Payload(x) + x.reqSize
      modifies mem
      ensures Valid() && a < mem.Length && mem[..] == old(mem[..])[a := value]
    {
      hide MajorsOk, HeadersOk, Blocks, Payload;
      PayloadInMem(x);
      ghost var bytes := mem[..];
      mem[a] := value;
      assert Tagged(mem[..], x) by { assert Tagged(bytes, x); }
      forall z | z in Blocks(majors) ensures Tagged(mem[..], z) {
        if z != x { TaggedElsewhere(bytes, mem[..], majors, x, z); }
      }
    }

    // realloc to a larger size. When the inner malloc fails the source goes on to copy through
    // NULL; the model stops there and says so.
    method Enlarge(p: nat, realSize: nat, size: nat, ghost x: Minor) returns (q: nat, wild: bool, ghost y: Minor)
      requires Valid() && x in Blocks(majors) && p == Payload(x) && realSize == x.reqSize < size && p <= mem.Length
      modifies this, mem, phys, phys.bitmap
      ensures Valid() && Budget() == old(Budget())
      ensures wild <==> phys.refused > old(phys.refused)
      ensures wild <==> old(OutOfMemory(size))
      ensures wild ==> q == 0 && majors == old(majors) && mem[..] == old(mem[..])
      ensures !wild ==> Moved(p, q, x, y, size)
    {
      hide MajorsOk, HeadersOk, PagesOk, TagsOk, TotalsOk, NoneEmpty, BetOk, Blocks, Payload, OutOfMemory;
      PayloadInMem(x);
      ghost var c;
      q, y, c := Malloc(size);
      if q == 0 { return 0, true, y; }
      wild := false;
      PayloadInMem(y);
      BlocksApart(majors, x, y);
      Copy(q, p, realSize, x, y);
      ghost var copied := mem[..];
      assert forall a :: q <= a < q + realSize ==> copied[a] == old(mem[a - q + p]);
      FoundAgain(p, x);
      Free(p);
      assert mem[..] == copied;
      assert Blocks(majors) == Blocks(old(majors)) + {y} - {x};
    }

    // Block x has moved to y: its contents are there, and nothing outside y has changed.
    twostate predicate Moved(p: nat, q: nat, x: Minor, y: Minor, size: nat)
      reads this`majors, mem
    {
      && q == Payload(y) && y.reqSize == size && y !in Blocks(old(majors)) && x in Blocks(old(majors))
      && Blocks(majors) == Blocks(old(majors)) + {y} - {x}
      && q + x.reqSize <= mem.Length && p + x.reqSize <= mem.Length
      && (forall a :: q <= a < q + x.reqSize ==> mem[a] == old(mem[a - q + p]))
      && (forall a :: 0 <= a < mem.Length && !(y.addr <= a < End(y)) ==> mem[a] == old(mem[a]))
    }

    lemma FoundAgain(p: nat, x: Minor)
      requires MajorsOk(majors) && TagsOk() && x in Blocks(majors) && p == Payload(x)
      ensures ALIGN_INFO <= p <= mem.Length && Found(p, x) && forall y :: Found(p, y) ==> y == x
    {
      PayloadInMem(x);
      UnalignUndoesAlign(mem[..], x);
      forall y | Found(p, y) ensures y == x { FindsItsBlock(p, x, y); }
    }

    // The block keeps its place; only the size asked for changes.
    method Shrink(k: nat, g: nat, size: nat)
      requires Valid() && k < |majors| && g < |majors[k].minors| && size <= majors[k].minors[g].reqSize
      modifies this`majors
      ensures Valid()
      ensures var x := old(majors)[k].minors[g];
              Blocks(majors) == Blocks(old(majors)) - {x} + {x.(reqSize := size)}
    {
      hide MajorsOk, HeadersOk, Blocks, TotalSize, TotalInUse, Tagged;
      ghost var was, x := majors, majors[k].minors[g];
      InBlocks(majors, k, x);
      Resized(majors, k, g, size, headers);
      SameTag(mem[..], x, size);
      majors := majors[k := majors[k].(minors := majors[k].minors[g := majors[k].minors[g].(reqSize := size)])];
      forall z | z in Blocks(majors) ensures Tagged(mem[..], z) { assert z in Blocks(was) || z == x.(reqSize := size); }
      BetStands();
    }

    lemma SameTag(bytes: seq<byte>, x: Minor, size: nat)
      requires Tagged(bytes, x)
      ensures Tagged(bytes, x.(reqSize := size))
    {
    }

    // A pointer that leads to a live header is the one malloc gave for it. Others may lead nowhere.
    ghost predicate Honest(p: nat)
      reads this`majors, mem
    {
      p <= mem.Length && p != 1 && (p != 0 ==> forall x :: Found(p, x) ==> p == Payload(x))
    }

    lemma NotFound(p: nat)
      requires HeadersOk(majors, headers) && ALIGN_INFO <= p <= mem.Length
      requires var a := Unaligned(mem[..], p) - MINOR_HEADER; a < 0 || a !in headers
      ensures forall x :: !Found(p, x)
    {
      HeadersAreBlocks();
    }

    lemma IsFound(p: nat, k: nat, g: nat)
      requires ALIGN_INFO <= p <= mem.Length && k < |majors| && g < |majors[k].minors|
      requires majors[k].minors[g].addr == Unaligned(mem[..], p) - MINOR_HEADER
      ensures majors[k].minors[g] in Blocks(majors) && Found(p, majors[k].minors[g])
    {
      InBlocks(majors, k, majors[k].minors[g]);
    }

    method Realloc(p: nat, size: nat) returns (q: nat, wild: bool, ghost x: Minor, ghost y: Minor)
      requires Valid() && Honest(p)
      modifies this, mem, phys, phys.bitmap
      ensures Valid() && Budget() == old(Budget())
      ensures wild <==> p != 0 && phys.refused > old(phys.refused)
      ensures wild ==> old(Found(p, x)) && size > x.reqSize && old(OutOfMemory(size))
      ensures forall z :: p != 0 && old(Found(p, z)) && size > z.reqSize && old(OutOfMemory(size)) ==> wild
      ensures p == 0 && size > 0 ==> (q == 0 <==> old(OutOfMemory(size)))
      ensures wild || (p == 0 && q == 0) ==> q == 0 && majors == old(majors) && mem[..] == old(mem[..])
      ensures p == 0 && size > 0 ==> if phys.refused == old(phys.refused) then Gave(q, y, size) else q == 0
      ensures p != 0 && size > 0 && !wild && q != 0 ==> old(Found(p, x))
      ensures p != 0 && size > 0 && !wild && q != 0 ==>
                if size <= x.reqSize
                then q == p && mem[..] == old(mem[..])
                     && Blocks(majors) == Blocks(old(majors)) - {x} + {x.(reqSize := size)}
                else Moved(p, q, x, y, size)
      ensures p != 0 && size > 0 && !wild && q == 0 ==>
                (forall z :: !old(Found(p, z))) && majors == old(majors) && mem[..] == old(mem[..])
      ensures size == 0 ==> q == 0 && mem[..] == old(mem[..])
      ensures p != 0 && size == 0 ==> forall z :: old(Found(p, z)) ==> Blocks(majors) == Blocks(old(majors)) - {z}
    {
      hide MajorsOk, HeadersOk, PagesOk, TagsOk, TotalsOk, NoneEmpty, BetOk, Blocks, Found, Payload, Moved, Gave;
      hide OutOfMemory;
      q, wild, x, y := 0, false, Minor(0, 0, 0), Minor(0, 0, 0);
      if size == 0 {
        Free(p);
        return;
      }
      if p == 0 {
        ghost var c;
        q, y, c := Malloc(size);
        return;
      }
      var a := Unaligned(mem[..], p) - MINOR_HEADER;
      if a < 0 || a !in headers {
        NotFound(p);
        assert forall z :: !old(Found(p, z));
        errorCount := errorCount + 1;
        return;
      }
      q, wild, x, y := Resize(p, a, size);
    }

    // realloc once the header is known to be live.
    method Resize(p: nat, a: nat, size: nat) returns (q: nat, wild: bool, ghost x: Minor, ghost y: Minor)
      requires Valid() && Honest(p) && p != 0 && size > 0 && a in headers && a + MINOR_HEADER == Unaligned(mem[..], p)
      modifies this, mem, phys, phys.bitmap
      ensures Valid() && old(Found(p, x)) && Budget() == old(Budget())
      ensures forall z :: old(Found(p, z)) ==> z == x
      ensures wild <==> phys.refused > old(phys.refused)
      ensures wild <==> size > x.reqSize && old(OutOfMemory(size))
      ensures wild ==> q == 0 && majors == old(majors) && mem[..] == old(mem[..])
      ensures !wild ==> q != 0
      ensures !wild ==> if size <= x.reqSize
                        then q == p && mem[..] == old(mem[..])
                             && Blocks(majors) == Blocks(old(majors)) - {x} + {x.(reqSize := size)}
                        else Moved(p, q, x, y, size)
    {
      hide MajorsOk, HeadersOk, PagesOk, TagsOk, TotalsOk, NoneEmpty, BetOk, Blocks, Found, Payload, OutOfMemory;
      wild, y := false, Minor(0, 0, 0);
      ghost var i, j := HeaderLeads(a);
      var k := MajorAt(headers[a]);
      var g := MinorAt(k, a);
      x := majors[k].minors[g];
      IsFound(p, k, g);
      OnlyOneFound(p, x);
      forall z | old(Found(p, z)) ensures z == x { assert Found(p, z); }
      var realSize := majors[k].minors[g].reqSize;
      if realSize >= size {
        Shrink(k, g, size);
        return p, wild, x, y;
      }
      q, wild, y := Enlarge(p, realSize, size, x);
      PayloadPositive(y);
    }
  }
}
