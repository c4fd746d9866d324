// The slab cache of kernel/mm/kmem_cache.c: slabs of equal objects, each with a stack of free indices.
module KmemCache {
  import opened Options
  import opened KmemLayout
  import opened Sequences

  lemma TopOff(free: seq<nat>)
    requires free != [] && Distinct(free)
    ensures Distinct(free[1..]) && free[0] !in free[1..]
    ensures forall i :: i in free <==> i == free[0] || i in free[1..]
  {
    assert free == [free[0]] + free[1..];
  }

  // struct kmem_slab, with its ctl array behind it. `live` are the indices handed out.
  class Slab {
    const ptr: nat
    const ctl: array<nat>
    var position: nat
    ghost var live: set<nat>

    // The stack from `position` on is a duplicate-free list of exactly the free indices.
    ghost predicate Ok()
      reads this, ctl
    {
      && position <= ctl.Length
      && Distinct(ctl[position..])
      && (forall i :: i in ctl[position..] ==> i < ctl.Length && i !in live)
      && (forall i :: 0 <= i < ctl.Length && i !in live ==> i in ctl[position..])
      && (forall i :: i in live ==> i < ctl.Length)
      && |live| == position
    }

    // The part of kmem_new_slab and kmem_init_slab that concerns the stack.
    constructor (ptr: nat, objects: nat)
      ensures Ok() && this.ptr == ptr && ctl.Length == objects && position == 0 && live == {} && fresh(ctl)
    {
      this.ptr := ptr;
      ctl := new nat[objects](i => i);
      position := 0;
      live := {};
      new;
      ghost var free := ctl[0..];
      forall i | 0 <= i < objects ensures i in free {
        assert free[i] == i;
      }
    }

    // The top of the stack is handed out.
    method Pop() returns (index: nat)
      requires Ok() && position < ctl.Length
      modifies this
      ensures Ok() && position == old(position) + 1
      ensures index < ctl.Length && index !in old(live) && live == old(live) + {index}
    {
      ghost var free := ctl[position..];
      index := ctl[position];
      position := position + 1;
      TopOff(free);
      hide Distinct;
      assert ctl[position..] == free[1..];
      live := live + {index};
    }

    method Push(index: nat)
      requires Ok() && index in live
      modifies this, ctl
      ensures Ok() && position == old(position) - 1 && live == old(live) - {index}
    {
      ghost var free := ctl[position..];
      assert live != {};
      position := position - 1;
      ctl[position] := index;
      assert ctl[position..] == [index] + free;
      live := live - {index};
    }
  }

  function Used(slabs: seq<Slab>): nat
    reads slabs
  {
    if slabs == [] then 0 else slabs[0].position + Used(slabs[1..])
  }

  lemma {:induction false} UsedOf(slabs: seq<Slab>, k: nat)
    requires k < |slabs|
    ensures Used(slabs) == slabs[k].position + Used(slabs[..k] + slabs[k + 1..])
  {
    if k == 0 {
      assert slabs[..0] + slabs[1..] == slabs[1..];
    } else {
      UsedOf(slabs[1..], k - 1);
      assert slabs[1..][..k - 1] + slabs[1..][k..] == (slabs[..k] + slabs[k + 1..])[1..];
    }
  }

  lemma {:induction false} AllFull(slabs: seq<Slab>, objects: nat)
    requires forall k :: 0 <= k < |slabs| ==> slabs[k].position == objects
    ensures Used(slabs) == |slabs| * objects
  {
    if slabs != [] {
      AllFull(slabs[1..], objects);
    }
  }

  // The object spaces of two slabs do not overlap.
  predicate Apart(r: Request, p: nat, q: nat) {
    p + ObjectSpace(r) <= q || q + ObjectSpace(r) <= p
  }

  class Cache {
    const r: Request
    const noGrow: bool
    const hasReclaim: bool
    var slabs: seq<Slab>
    var totalObjects: int
    var usedObjects: int

    ghost function Ctls(): set<array<nat>>
      reads this`slabs
    {
      set s: Slab | s in slabs :: s.ctl
    }

    ghost predicate Separate()
      reads this`slabs
    {
      && (forall i, j :: 0 <= i < j < |slabs| ==> slabs[i] != slabs[j] && slabs[i].ctl != slabs[j].ctl)
      && (forall i, j :: 0 <= i < j < |slabs| ==> Apart(r, slabs[i].ptr, slabs[j].ptr))
    }

    ghost predicate Stacks()
      reads this`slabs, slabs, Ctls()
    {
      forall s :: s in slabs ==> s.ctl.Length == r.objects && s.Ok()
    }

    ghost predicate Counts()
      reads this, slabs
    {
      totalObjects == |slabs| * r.objects && usedObjects == Used(slabs)
    }

    ghost predicate Valid()
      reads this, slabs, Ctls()
    {
      Usable(r) && Separate() && Stacks() && Counts()
    }

    // The object at this address has been handed out.
    ghost predicate IsLive(obj: int)
      reads this, slabs
    {
      exists s, i :: s in slabs && i in s.live && obj == ObjectAt(r, s.ptr, i)
    }

    // kmem_cache_create
    constructor (r: Request, noGrow: bool, hasReclaim: bool)
      requires Usable(r)
      ensures Valid() && this.r == r && slabs == [] && forall obj :: !IsLive(obj)
      ensures this.noGrow == noGrow && this.hasReclaim == hasReclaim
    {
      this.r := r;
      this.noGrow, this.hasReclaim := noGrow, hasReclaim;
      slabs := [];
      totalObjects, usedObjects := 0, 0;
    }

    // kmem_cache_grow. `mem` is the object space inside what kmalloc returned.
    method Grow(mem: Option<nat>) returns (ok: bool)
      requires Valid() && (mem.Some? ==> forall s :: s in slabs ==> Apart(r, mem.value, s.ptr))
      modifies this`slabs, this`totalObjects
      ensures Valid() && ok == mem.Some?
      ensures !ok ==> slabs == old(slabs) && totalObjects == old(totalObjects)
      ensures ok ==>
                && |slabs| == |old(slabs)| + 1 && slabs[1..] == old(slabs)
                && totalObjects == old(totalObjects) + r.objects
                && slabs[0].position == 0 && slabs[0].ptr == mem.value && fresh(slabs[0]) && fresh(slabs[0].ctl)
      ensures forall obj :: IsLive(obj) <==> old(IsLive(obj))
    {
      if mem.None? {
        return false;
      }
      hide Slab.Ok, ObjectAt, Apart;
      ghost var was := slabs;
      var slab := new Slab(mem.value, r.objects);
      totalObjects := totalObjects + r.objects;
      slabs := [slab] + slabs;
      assert slabs[1..] == was;
      OneMore(|was|, r.objects);
      SeparateGrown(was, slab);
      LiveGrown(slab);
      hide Separate, IsLive;
      ok := true;
    }

    lemma SeparateGrown(was: seq<Slab>, slab: Slab)
      requires slabs == [slab] + was
      requires forall i, j :: 0 <= i < j < |was| ==> was[i] != was[j] && was[i].ctl != was[j].ctl
      requires forall i, j :: 0 <= i < j < |was| ==> Apart(r, was[i].ptr, was[j].ptr)
      requires forall s :: s in was ==> s != slab && s.ctl != slab.ctl && Apart(r, slab.ptr, s.ptr)
      ensures Separate()
    {
      assert forall j :: 0 < j < |slabs| ==> slabs[j] == was[j - 1];
    }

    twostate lemma LiveGrown(new slab: Slab)
      requires slabs == [slab] + old(slabs) && slab.live == {}
      requires forall s: Slab :: s in old(slabs) ==> s.live == old(s.live)
      ensures forall obj :: IsLive(obj) <==> old(IsLive(obj))
    {
      assert forall s :: s in slabs <==> s == slab || s in old(slabs);
    }

    lemma SlabsApart(s: Slab, t: Slab)
      requires Separate() && s in slabs && t in slabs && s != t
      ensures Apart(r, s.ptr, t.ptr) && s.ctl != t.ctl
    {
      var k :| 0 <= k < |slabs| && slabs[k] == s;
      var l :| 0 <= l < |slabs| && slabs[l] == t;
      if k < l {
        assert Apart(r, slabs[k].ptr, slabs[l].ptr);
      } else {
        assert Apart(r, slabs[l].ptr, slabs[k].ptr);
      }
    }

    // An address is an object of one slab only, at one index only.
    lemma OneObject(s: Slab, i: nat, t: Slab, j: nat)
      requires Valid() && s in slabs && t in slabs && i < r.objects && j < r.objects
      requires ObjectAt(r, s.ptr, i) == ObjectAt(r, t.ptr, j)
      ensures s == t && i == j
    {
      ObjectInside(r, s.ptr, i);
      ObjectInside(r, t.ptr, j);
      IndexInverse(r, s.ptr, i);
      IndexInverse(r, s.ptr, j);
      if s != t {
        SlabsApart(s, t);
      }
    }

    twostate lemma WasNotLive(slab: Slab, new index: nat)
      requires old(Valid()) && Valid() && slabs == old(slabs) && slab in slabs
      requires index < r.objects && index !in old(slab.live)
      ensures !old(IsLive(ObjectAt(r, slab.ptr, index)))
    {
      forall s, i | s in slabs && i in old(s.live)
        ensures ObjectAt(r, s.ptr, i) != ObjectAt(r, slab.ptr, index)
      {
        assert old(s.Ok());
        if ObjectAt(r, s.ptr, i) == ObjectAt(r, slab.ptr, index) {
          OneObject(s, i, slab, index);
        }
      }
    }

    twostate lemma LiveAdded(slab: Slab, new index: nat)
      requires slabs == old(slabs) && slab in slabs && slab.live == old(slab.live) + {index}
      requires forall s :: s in slabs && s != slab ==> s.live == old(s.live)
      ensures forall p :: IsLive(p) <==> old(IsLive(p)) || p == ObjectAt(r, slab.ptr, index)
    {
    }

    // One slab has changed, and its stack is in order.
    twostate lemma OthersStand(slab: Slab)
      requires old(Valid()) && slabs == old(slabs) && slab in slabs && totalObjects == old(totalObjects)
      requires slab.Ok()
      requires forall s :: s in slabs && s != slab ==>
                 s.position == old(s.position) && s.live == old(s.live) && s.ctl[..] == old(s.ctl[..])
      requires usedObjects - old(usedObjects) == slab.position - old(slab.position)
      ensures Valid()
    {
      forall s | s in slabs ensures s.ctl.Length == r.objects && s.Ok() {
        assert old(s.Ok());
        if s != slab {
          assert s.ctl[s.position..] == old(s.ctl[s.position..]);
        }
      }
      var k :| 0 <= k < |slabs| && slabs[k] == slab;
      UsedChange(slabs, k);
    }

    // What belongs to two live objects never overlaps, in the same slab or in different ones.
    lemma LiveApart(p: int, q: int)
      requires Valid() && IsLive(p) && IsLive(q) && p != q
      ensures End(r, p) <= First(r, q) || End(r, q) <= First(r, p)
    {
      var s, i :| s in slabs && i in s.live && p == ObjectAt(r, s.ptr, i);
      var t, j :| t in slabs && j in t.live && q == ObjectAt(r, t.ptr, j);
      assert s.Ok() && s.ctl.Length == r.objects && t.Ok() && t.ctl.Length == r.objects;
      if s == t {
        if i < j { ObjectsApart(r, s.ptr, i, j); } else { ObjectsApart(r, s.ptr, j, i); }
      } else {
        SlabsApart(s, t);
        GuessSuffices(r, s.ptr, i);
        GuessSuffices(r, t.ptr, j);
      }
    }

    // The case of kmem_cache_alloc in which the first slab has room.
    method TakeFirst() returns (obj: int)
      requires Valid() && slabs != [] && slabs[0].position != r.objects
      modifies this`usedObjects, slabs
      ensures Valid() && usedObjects == old(usedObjects) + 1
      ensures !old(IsLive(obj)) && forall p :: IsLive(p) <==> old(IsLive(p)) || p == obj
    {
      var slab := slabs[0];
      assert slab.ctl.Length == r.objects && slab.Ok();
      var index := slab.Pop();
      usedObjects := usedObjects + 1;
      obj := ObjectAt(r, slab.ptr, index);
      hide Valid, IsLive, Slab.Ok, ObjectAt;
      OthersStand(slab);
      LiveAdded(slab, index);
      WasNotLive(slab, index);
    }

    // The loop of kmem_cache_alloc that looks for a slab with room, behind a full first one.
    method FindRoom() returns (k: nat)
      requires Valid() && slabs != [] && slabs[0].position == r.objects && usedObjects < totalObjects
      ensures 0 < k < |slabs| && slabs[k].position != r.objects && Valid()
    {
      k := 1;
      RoomBehind(1);
      while slabs[k].position == r.objects
        invariant 0 < k < |slabs|
        invariant forall j :: 0 <= j < k ==> slabs[j].position == r.objects
        decreases |slabs| - k
      {
        RoomBehind(k + 1);
        k := k + 1;
      }
    }

    lemma RoomBehind(k: nat)
      requires Valid() && usedObjects < totalObjects
      requires k <= |slabs| && forall j :: 0 <= j < k ==> slabs[j].position == r.objects
      ensures k < |slabs|
    {
      if k == |slabs| {
        AllFull(slabs, r.objects);
      }
    }

    // The relinking of kmem_cache_alloc.
    method MoveToFront(k: nat)
      requires Valid() && 0 < k < |slabs|
      modifies this`slabs
      ensures Valid() && |slabs| == |old(slabs)| && slabs[0] == old(slabs)[k]
      ensures forall s :: s in slabs <==> s in old(slabs)
      ensures forall p :: IsLive(p) <==> old(IsLive(p))
    {
      hide Slab.Ok, ObjectAt, Apart;
      ghost var was := slabs;
      UsedOf(slabs, k);
      slabs := [slabs[k]] + slabs[..k] + slabs[k + 1..];
      assert slabs[1..] == was[..k] + was[k + 1..];
      FrontMembers(was, k);
      Reordered(was, k);
      hide Separate, Used;
    }

    lemma FrontMembers(was: seq<Slab>, k: nat)
      requires 0 < k < |was| && slabs == [was[k]] + was[..k] + was[k + 1..]
      ensures forall s :: s in slabs <==> s in was
    {
      forall s | s in was ensures s in slabs {
        var i :| 0 <= i < |was| && was[i] == s;
        assert slabs[if i < k then i + 1 else if i == k then 0 else i] == s;
      }
    }

    lemma Reordered(was: seq<Slab>, k: nat)
      requires 0 < k < |was| && slabs == [was[k]] + was[..k] + was[k + 1..]
      requires forall i, j :: 0 <= i < j < |was| ==>
                 was[i] != was[j] && was[i].ctl != was[j].ctl && Apart(r, was[i].ptr, was[j].ptr)
      ensures Separate()
    {
      forall i | 0 <= i < |slabs| ensures slabs[i] == was[From(k, i)] {
      }
    }

    // kmem_cache_alloc. The two attempts to grow get `first` and `second` from kmalloc.
    method Alloc(first: Option<nat>, second: Option<nat>) returns (obj: Option<int>)
      requires Valid()
      requires first.Some? ==> forall s :: s in slabs ==> Apart(r, first.value, s.ptr)
      requires second.Some? ==> forall s :: s in slabs ==> Apart(r, second.value, s.ptr)
      modifies this, slabs
      ensures Valid()
      ensures obj.Some? <==>
                old(usedObjects) < old(totalObjects)
                || (!noGrow && (first.Some? || (hasReclaim && second.Some?)))
      ensures obj.Some? ==> !old(IsLive(obj.value)) && usedObjects == old(usedObjects) + 1
      ensures obj.None? ==> usedObjects == old(usedObjects) && totalObjects == old(totalObjects) && slabs == old(slabs)
      ensures forall p :: IsLive(p) <==> old(IsLive(p)) || obj == Some(p)
      decreases slabs == [] || slabs[0].position == r.objects
    {
      hide Valid, IsLive, ObjectAt;
      FirstFacts();
      if slabs != [] && slabs[0].position != r.objects {
        var p := TakeFirst();
        return Some(p);
      }
      if totalObjects == usedObjects {
        if noGrow { return None; }
        var grown := Grow(first);
        if !grown {
          if !hasReclaim { return None; }
          grown := Grow(second);
          if !grown { return None; }
        }
        obj := Alloc(None, None);
        return;
      }
      var k := FindRoom();
      MoveToFront(k);
      assert forall i :: 0 <= i < |slabs| ==> slabs[i] in old(slabs);
      obj := Alloc(None, None);
    }

    lemma FirstFacts()
      requires Valid()
      ensures r.objects > 0 && usedObjects <= totalObjects
      ensures slabs == [] ==> totalObjects == usedObjects
      ensures slabs != [] && slabs[0].position != r.objects ==> usedObjects < totalObjects
    {
      forall s | s in slabs ensures s.position <= r.objects { assert s.Ok(); }
      UsedAtMost(slabs, r.objects);
      if slabs != [] && slabs[0].position != r.objects {
        UsedAtMost(slabs[1..], r.objects);
        OneMore(|slabs[1..]|, r.objects);
      }
    }

    predicate Holds(s: Slab, obj: int) {
      s.ptr <= obj < s.ptr + ObjectSpace(r)
    }

    // get_object_slab
    method ObjectSlab(obj: int) returns (k: nat)
      ensures k <= |slabs| && (k < |slabs| ==> Holds(slabs[k], obj))
      ensures k == |slabs| ==> forall s :: s in slabs ==> !Holds(s, obj)
    {
      k := 0;
      while k < |slabs| && !Holds(slabs[k], obj)
        invariant k <= |slabs| && forall j :: 0 <= j < k ==> !Holds(slabs[j], obj)
      {
        k := k + 1;
      }
    }

    // A live object is in its own slab's space, and in no other's.
    lemma OwnSlab(obj: int, slab: Slab)
      requires Valid() && IsLive(obj) && slab in slabs && Holds(slab, obj)
      ensures IndexOf(r, slab.ptr, obj) >= 0 && IndexOf(r, slab.ptr, obj) in slab.live
      ensures obj == ObjectAt(r, slab.ptr, IndexOf(r, slab.ptr, obj))
    {
      var s, i :| s in slabs && i in s.live && obj == ObjectAt(r, s.ptr, i);
      assert s.Ok() && s.ctl.Length == r.objects;
      ObjectInside(r, s.ptr, i);
      IndexInverse(r, s.ptr, i);
      if s != slab {
        SlabsApart(s, slab);
      }
    }

    lemma HasSlab(obj: int)
      requires Valid() && IsLive(obj)
      ensures exists s :: s in slabs && Holds(s, obj)
    {
      var s, i :| s in slabs && i in s.live && obj == ObjectAt(r, s.ptr, i);
      assert s.Ok() && s.ctl.Length == r.objects;
      ObjectInside(r, s.ptr, i);
    }

    twostate lemma LiveRemoved(slab: Slab, new index: nat)
      requires Valid() && slabs == old(slabs) && slab in slabs && slab.live == old(slab.live) - {index}
      requires index < r.objects
      requires forall s :: s in slabs && s != slab ==> s.live == old(s.live)
      ensures forall p :: IsLive(p) <==> old(IsLive(p)) && p != ObjectAt(r, slab.ptr, index)
    {
      forall s, i | s in slabs && i in s.live ensures ObjectAt(r, s.ptr, i) != ObjectAt(r, slab.ptr, index) {
        assert s.Ok() && s.ctl.Length == r.objects;
        if ObjectAt(r, s.ptr, i) == ObjectAt(r, slab.ptr, index) {
          OneObject(s, i, slab, index);
        }
      }
    }

    // kmem_cache_free, of a live object or of an address in no slab.
    method Free(obj: int)
      requires Valid() && (IsLive(obj) || forall s :: s in slabs ==> !Holds(s, obj))
      modifies this`usedObjects, slabs, Ctls()
      ensures Valid() && usedObjects == old(usedObjects) - (if old(IsLive(obj)) then 1 else 0)
      ensures forall p :: IsLive(p) <==> old(IsLive(p)) && p != obj
    {
      var k := ObjectSlab(obj);
      if k == |slabs| {
        assert !IsLive(obj) by { if IsLive(obj) { HasSlab(obj); } }
        return;
      }
      var slab := slabs[k];
      assert IsLive(obj);
      OwnSlab(obj, slab);
      OtherCtls(slab);
      assert slab.Ok() && slab.ctl.Length == r.objects;
      hide Slab.Ok, ObjectAt, IndexOf, IsLive;
      var index := IndexOf(r, slab.ptr, obj);
      slab.Push(index);
      usedObjects := usedObjects - 1;
      OthersStand(slab);
      LiveRemoved(slab, index);
    }

    lemma OtherCtls(slab: Slab)
      requires Separate() && slab in slabs
      ensures forall s :: s in slabs && s != slab ==> s.ctl != slab.ctl
    {
      forall s | s in slabs && s != slab ensures s.ctl != slab.ctl { SlabsApart(s, slab); }
    }

    // The unlinking in kmem_cache_shrink, and kmem_destroy_slab.
    method Destroy(i: nat)
      requires Valid() && i < |slabs| && slabs[i].position == 0
      modifies this`slabs, this`totalObjects
      ensures Valid() && slabs == old(slabs)[..i] + old(slabs)[i + 1..]
      ensures forall p :: IsLive(p) <==> old(IsLive(p))
    {
      hide Slab.Ok, ObjectAt;
      ghost var was := slabs;
      NothingLive(was[i]);
      UsedOf(slabs, i);
      DropMembers(was, i);
      totalObjects := totalObjects - r.objects;
      slabs := slabs[..i] + slabs[i + 1..];
      OneMore(|slabs|, r.objects);
      assert Separate() by { Dropped(was, i); }
      hide Separate, Used, Apart, IsLive;
      LiveKept();
    }

    // Slabs came or went, but none with a live object.
    twostate lemma LiveKept()
      requires forall s :: s in slabs && s !in old(slabs) ==> s.live == {}
      requires forall s :: s in slabs && s in old(slabs) ==> s.live == old(s.live)
      requires forall s :: s in old(slabs) && s !in slabs ==> old(s.live) == {}
      ensures forall p :: IsLive(p) <==> old(IsLive(p))
    {
    }

    lemma NothingLive(slab: Slab)
      requires Stacks() && slab in slabs && slab.position == 0
      ensures slab.live == {}
    {
      assert slab.Ok();
    }

    lemma Dropped(was: seq<Slab>, i: nat)
      requires i < |was| && slabs == was[..i] + was[i + 1..]
      requires forall j, k :: 0 <= j < k < |was| ==>
                 was[j] != was[k] && was[j].ctl != was[k].ctl && Apart(r, was[j].ptr, was[k].ptr)
      ensures Separate()
    {
      forall j | 0 <= j < |slabs| ensures slabs[j] == was[if j < i then j else j + 1] {
      }
    }

    // kmem_cache_shrink: exactly the slabs without a live object go.
    method Shrink()
      requires Valid()
      modifies this`slabs, this`totalObjects
      ensures Valid() && slabs == NotEmpty(old(slabs))
      ensures forall p :: IsLive(p) <==> old(IsLive(p))
    {
      hide Valid, IsLive, NotEmpty;
      var i := 0;
      assert slabs[0..] == slabs && slabs[..0] == [];
      while i < |slabs|
        invariant i <= |slabs| && Valid()
        invariant NotEmpty(old(slabs)) == slabs[..i] + NotEmpty(slabs[i..])
        invariant forall p :: IsLive(p) <==> old(IsLive(p))
        decreases |slabs| - i
      {
        NextNotEmpty(slabs, i);
        if slabs[i].position == 0 {
          ghost var was := slabs;
          Destroy(i);
          assert slabs[..i] == was[..i] && slabs[i..] == was[i + 1..];
        } else {
          i := i + 1;
        }
      }
      NextNotEmpty(slabs, i);
      assert slabs[..i] == slabs;
    }
  }

  twostate lemma {:induction false} SameUsed(s: seq<Slab>)
    requires forall k :: 0 <= k < |s| ==> s[k].position == old(s[k].position)
    ensures Used(s) == old(Used(s))
  {
    if s != [] {
      SameUsed(s[1..]);
    }
  }

  twostate lemma {:induction false} UsedChange(s: seq<Slab>, new k: nat)
    requires k < |s| && forall i :: 0 <= i < |s| && i != k ==> s[i].position == old(s[i].position)
    ensures Used(s) - old(Used(s)) == s[k].position - old(s[k].position)
  {
    if k == 0 {
      SameUsed(s[1..]);
    } else {
      UsedChange(s[1..], k - 1);
    }
  }

  function From(k: nat, i: nat): nat { if i == 0 then k else if i <= k then i - 1 else i }

  lemma {:induction false} UsedAtMost(slabs: seq<Slab>, objects: nat)
    requires forall s :: s in slabs ==> s.position <= objects
    ensures Used(slabs) <= |slabs| * objects
  {
    if slabs != [] {
      UsedAtMost(slabs[1..], objects);
      assert |slabs| * objects == |slabs[1..]| * objects + objects;
    }
  }

  function NotEmpty(slabs: seq<Slab>): (r: seq<Slab>)
    reads slabs
  {
    if slabs == [] then [] else (if slabs[0].position == 0 then [] else [slabs[0]]) + NotEmpty(slabs[1..])
  }

  lemma NextNotEmpty(slabs: seq<Slab>, i: nat)
    requires i <= |slabs|
    ensures i == |slabs| ==> NotEmpty(slabs[i..]) == []
    ensures i < |slabs| && slabs[i].position == 0 ==> NotEmpty(slabs[i..]) == NotEmpty(slabs[i + 1..])
    ensures i < |slabs| && slabs[i].position != 0 ==>
              slabs[..i] + NotEmpty(slabs[i..]) == slabs[..i + 1] + NotEmpty(slabs[i + 1..])
  {
    if i < |slabs| {
      assert slabs[i..][1..] == slabs[i + 1..];
      assert slabs[..i + 1] == slabs[..i] + [slabs[i]];
    }
  }

  lemma OneMore(n: nat, objects: nat)
    ensures (n + 1) * objects == n * objects + objects
  {
  }
}
