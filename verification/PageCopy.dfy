// page_copy_in and page_copy_out of kernel/paging.c: byte by byte between physical memory and the
// pages of another address space.
module PageCopy {
  import opened Paging
  import opened PageSize
  import opened Sequences

  // Byte n of a copy is read after bytes 0 to n - 1 have been written.
  function Copied(mem: seq<bv8>, to: seq<int>, from: seq<int>, n: nat): (r: seq<bv8>)
    requires n <= |to| && n <= |from|
    requires forall i :: 0 <= i < n ==> 0 <= to[i] < |mem| && 0 <= from[i] < |mem|
    ensures |r| == |mem|
  {
    if n == 0 then mem
    else
      var before := Copied(mem, to, from, n - 1);
      before[to[n - 1] := before[from[n - 1]]]
  }

  ghost predicate Apart(s: seq<int>, t: seq<int>) {
    forall i, j :: 0 <= i < |s| && 0 <= j < |t| ==> s[i] != t[j]
  }

  predicate Inside(s: seq<int>, bound: nat) {
    forall i :: 0 <= i < |s| ==> 0 <= s[i] < bound
  }

  // A copy between places that do not overlap moves exactly its bytes.
  lemma {:induction false} CopyMoves(mem: seq<bv8>, to: seq<int>, from: seq<int>, n: nat)
    requires n <= |to| == |from| && Inside(to, |mem|) && Inside(from, |mem|)
    requires Distinct(to) && Apart(to, from)
    ensures forall i :: 0 <= i < n ==> Copied(mem, to, from, n)[to[i]] == mem[from[i]]
    ensures forall a :: 0 <= a < |mem| && a !in to[..n] ==> Copied(mem, to, from, n)[a] == mem[a]
  {
    if n > 0 {
      CopyMoves(mem, to, from, n - 1);
      assert from[n - 1] !in to[..n - 1];
      assert to[..n] == to[..n - 1] + [to[n - 1]];
    }
  }

  // What is copied in and then out again arrives unchanged, and the source is still there.
  lemma RoundTrip(mem: seq<bv8>, from: seq<int>, pages: seq<int>, back: seq<int>)
    requires |from| == |pages| == |back|
    requires Inside(from, |mem|) && Inside(pages, |mem|) && Inside(back, |mem|)
    requires Distinct(pages) && Distinct(back) && Apart(pages, from) && Apart(back, pages)
    ensures var copied := Copied(mem, pages, from, |from|);
            var returned := Copied(copied, back, pages, |pages|);
            forall i :: 0 <= i < |from| ==> returned[back[i]] == mem[from[i]] == copied[from[i]]
  {
    CopyMoves(mem, pages, from, |from|);
    CopyMoves(Copied(mem, pages, from, |from|), back, pages, |pages|);
    forall i | 0 <= i < |from| ensures from[i] !in pages[..|from|] {
    }
  }

  function Straight(first: int, bytes: nat): (s: seq<int>)
    ensures |s| == bytes && forall i :: 0 <= i < bytes ==> s[i] == first + i
  {
    seq(bytes, i => first + i)
  }

  ghost predicate Reaches(dir: Directory, first: int, bytes: nat)
    reads dir, dir.slots, dir.Tables()
  {
    && dir.Valid()
    && forall a :: first <= a < first + bytes ==> FIRST_PAGE <= PageOf(a) < LIMIT_PAGE && dir.Mapped(PageOf(a))
  }

  // Where a byte of the address space lies.
  ghost function Physical(dir: Directory, a: int): int
    requires dir.Valid() && FIRST_PAGE <= PageOf(a) < LIMIT_PAGE
    reads dir, dir.slots, dir.Tables()
  {
    FrameOf(dir.Word(PageOf(a))) + a % PAGE_SIZE
  }

  ghost function Physicals(dir: Directory, first: int, bytes: nat): (s: seq<int>)
    requires Reaches(dir, first, bytes)
    reads dir, dir.slots, dir.Tables()
    ensures |s| == bytes && forall i :: 0 <= i < bytes ==> s[i] == Physical(dir, first + i)
  {
    seq(bytes, i requires Reaches(dir, first, bytes) && 0 <= i < bytes reads dir, dir.slots, dir.Tables() =>
      Physical(dir, first + i))
  }

  // Pages with frames of their own keep the bytes of an address range apart.
  lemma OwnFrames(dir: Directory, first: int, bytes: nat)
    requires Reaches(dir, first, bytes)
    requires forall a, b :: first <= a < b < first + bytes && PageOf(a) != PageOf(b) ==>
               FrameOf(dir.Word(PageOf(a))) != FrameOf(dir.Word(PageOf(b)))
    ensures Distinct(Physicals(dir, first, bytes))
  {
    hide FrameOf, Directory.Word, Directory.Valid, Directory.Tables, Directory.Mapped;
    var s := Physicals(dir, first, bytes);
    forall i, j | 0 <= i < j < bytes ensures s[i] != s[j] {
      var a, b := first + i, first + j;
      var v, w := dir.Word(PageOf(a)), dir.Word(PageOf(b));
      if PageOf(a) == PageOf(b) {
        assert a % PAGE_SIZE != b % PAGE_SIZE;
      } else {
        assert FrameOf(v) != FrameOf(w);
        FramesApart(v, w, a % PAGE_SIZE, b % PAGE_SIZE);
      }
    }
  }

  lemma FramesApart(v: int, w: int, x: int, y: int)
    requires FrameOf(v) != FrameOf(w) && 0 <= x < PAGE_SIZE && 0 <= y < PAGE_SIZE
    ensures FrameOf(v) + x != FrameOf(w) + y
  {
  }

  class Memory {
    var bytes: seq<bv8>
  }

  // The address arithmetic of the loops: the table's entry without its low bits, plus the offset.
  function Locate(dir: Directory, a: int): (p: int)
    requires dir.Valid() && FIRST_PAGE <= PageOf(a) < LIMIT_PAGE && dir.Mapped(PageOf(a))
    reads dir, dir.slots, dir.Tables()
    ensures p == Physical(dir, a)
  {
    var table := dir.slots[a / 0x400000].table;
    FrameOf(table[a / PAGE_SIZE % ENTRIES]) + a % PAGE_SIZE
  }

  method CopyIn(dir: Directory, ram: Memory, dest: int, src: int, bytes: nat) returns (n: nat)
    requires Reaches(dir, dest, bytes) && Inside(Physicals(dir, dest, bytes), |ram.bytes|)
    requires 0 <= src && src + bytes <= |ram.bytes|
    modifies ram
    ensures n == bytes
    ensures ram.bytes == Copied(old(ram.bytes), old(Physicals(dir, dest, bytes)), Straight(src, bytes), bytes)
  {
    hide Reaches, Physical;
    ghost var to, from := Physicals(dir, dest, bytes), Straight(src, bytes);
    for i := 0 to bytes
      invariant Reaches(dir, dest, bytes) && Physicals(dir, dest, bytes) == to
      invariant |ram.bytes| == |old(ram.bytes)| && unchanged(dir.slots) && unchanged(dir.Tables())
      invariant ram.bytes == Copied(old(ram.bytes), to, from, i)
    {
      ReachesOne(dir, dest, bytes, i);
      assert to[i] == Physical(dir, dest + i) && from[i] == src + i;
      ram.bytes := ram.bytes[Locate(dir, dest + i) := ram.bytes[src + i]];
    }
    n := bytes;
  }

  method CopyOut(dir: Directory, ram: Memory, dest: int, src: int, bytes: nat) returns (n: nat)
    requires Reaches(dir, src, bytes) && Inside(Physicals(dir, src, bytes), |ram.bytes|)
    requires 0 <= dest && dest + bytes <= |ram.bytes|
    modifies ram
    ensures n == bytes
    ensures ram.bytes == Copied(old(ram.bytes), Straight(dest, bytes), old(Physicals(dir, src, bytes)), bytes)
  {
    hide Reaches, Physical;
    ghost var to, from := Straight(dest, bytes), Physicals(dir, src, bytes);
    for i := 0 to bytes
      invariant Reaches(dir, src, bytes) && Physicals(dir, src, bytes) == from
      invariant |ram.bytes| == |old(ram.bytes)| && unchanged(dir.slots) && unchanged(dir.Tables())
      invariant ram.bytes == Copied(old(ram.bytes), to, from, i)
    {
      ReachesOne(dir, src, bytes, i);
      assert from[i] == Physical(dir, src + i) && to[i] == dest + i;
      ram.bytes := ram.bytes[dest + i := ram.bytes[Locate(dir, src + i)]];
    }
    n := bytes;
  }

  lemma ReachesOne(dir: Directory, first: int, bytes: nat, i: nat)
    requires Reaches(dir, first, bytes) && i < bytes
    ensures dir.Valid() && FIRST_PAGE <= PageOf(first + i) < LIMIT_PAGE && dir.Mapped(PageOf(first + i))
  {
  }
}
