// Where a slab cache puts its objects (kernel/mm/kmem_cache.c): the sizes chosen by kmem_cache_create,
// the offset chosen by kmem_new_slab, and the address arithmetic in between.
module KmemLayout {
  import opened Multiples

  const REDZONE: nat := 4      // sizeof(kmem_redzone_t)
  const OWNER: nat := 4        // sizeof(kmem_cache_t**)

  // What kmem_cache_create is asked for.
  datatype Request = Request(size: nat, align: nat, redZone: bool, ownership: bool, objects: nat)

  // The guard word and the owner pointer in front of an object, and the guard word behind it.
  function Front(r: Request): nat { (if r.redZone then REDZONE else 0) + (if r.ownership then OWNER else 0) }

  function Behind(r: Request): nat { if r.redZone then REDZONE else 0 }

  function Pad(r: Request, n: nat): (pad: int)
    ensures 0 <= pad && (pad < r.align || pad == 0)
  {
    if r.align > 1 then RoundUp(n, r.align) - n else 0
  }

  // int_size
  function IntSize(r: Request): (n: int)
    ensures n >= Front(r) + r.size + Behind(r)
  {
    var plain := r.size + (if r.redZone then 2 * REDZONE else 0) + (if r.ownership then OWNER else 0);
    plain + Pad(r, plain)
  }

  predicate AlignedFor(r: Request, n: nat) {
    r.align > 1 ==> n % r.align == 0
  }

  // int_size is the least aligned size that takes the object and what belongs to it.
  lemma LeastSize(r: Request)
    ensures AlignedFor(r, IntSize(r)) && Front(r) + r.size + Behind(r) <= IntSize(r)
    ensures forall n: nat :: AlignedFor(r, n) && Front(r) + r.size + Behind(r) <= n ==> IntSize(r) <= n
  {
    if r.align > 1 {
      IntSizeAligned(r);
      forall n: nat | AlignedFor(r, n) && Front(r) + r.size + Behind(r) <= n ensures IntSize(r) <= n {
        RoundUpLeast(Front(r) + r.size + Behind(r), r.align, n);
      }
    }
  }

  // The first object starts at the least aligned address that leaves room for what comes in front of it.
  lemma LeastOffset(r: Request, ptr: nat)
    ensures AlignedFor(r, ptr + Offset(r, ptr)) && ptr <= First(r, ObjectAt(r, ptr, 0))
    ensures forall a: nat :: AlignedFor(r, a) && ptr + Front(r) <= a ==> ObjectAt(r, ptr, 0) <= a
  {
    if r.align > 1 {
      OffsetAligned(r, ptr);
      forall a: nat | AlignedFor(r, a) && ptr + Front(r) <= a ensures ObjectAt(r, ptr, 0) <= a {
        RoundUpLeast(ptr + Front(r), r.align, a);
      }
    }
  }

  // int_slabobj_size, which the author calls a guess
  function ObjectSpace(r: Request): int {
    IntSize(r) * r.objects + r.align + if r.redZone then REDZONE else 0
  }

  // slab->offset, for objects that start at ptr
  function Offset(r: Request, ptr: nat): int {
    Front(r) + Pad(r, ptr + Front(r))
  }

  // get_object_ptr
  function ObjectAt(r: Request, ptr: nat, index: int): int {
    ptr + Offset(r, ptr) + index * IntSize(r)
  }

  // get_object_index
  function IndexOf(r: Request, ptr: nat, obj: int): int
    requires IntSize(r) > 0
  {
    (obj - ptr - Offset(r, ptr)) / IntSize(r)
  }

  // Everything that belongs to an object: from its owner pointer to the guard word behind it.
  function First(r: Request, obj: int): int { obj - Front(r) }

  function End(r: Request, obj: int): int { obj + r.size + Behind(r) }

  // The guess is enough: no object, guard word or owner pointer leaves the object space.
  lemma GuessSuffices(r: Request, ptr: nat, i: nat)
    requires i < r.objects
    ensures ptr <= First(r, ObjectAt(r, ptr, i)) && End(r, ObjectAt(r, ptr, i)) <= ptr + ObjectSpace(r)
  {
    var s := IntSize(r);
    assert (i + 1) * s <= r.objects * s by { NoMore(i + 1, r.objects, s); }
    assert (i + 1) * s == i * s + s;
    assert 0 <= i * s;
  }

  // What a cache works for: get_object_index divides by int_size, and get_object_slab looks for the
  // object's address among those of the object space.
  predicate Usable(r: Request) {
    r.objects > 0 && IntSize(r) > 0 && (r.size > 0 || r.redZone || r.align > 0)
  }

  lemma ObjectInside(r: Request, ptr: nat, i: nat)
    requires Usable(r) && i < r.objects
    ensures ptr <= ObjectAt(r, ptr, i) < ptr + ObjectSpace(r)
  {
    var s := IntSize(r);
    assert (i + 1) * s <= r.objects * s by { NoMore(i + 1, r.objects, s); }
    assert (i + 1) * s == i * s + s;
    assert 0 <= i * s;
  }

  // An empty object with an owner pointer only is the exception: the last one of a slab starts where the
  // object space ends.
  lemma InsideExactly(r: Request, ptr: nat)
    requires r.objects > 0 && IntSize(r) > 0
    ensures (forall i :: 0 <= i < r.objects ==> ptr <= ObjectAt(r, ptr, i) < ptr + ObjectSpace(r)) <==>
            r.size > 0 || r.redZone || r.align > 0
  {
    if Usable(r) {
      forall i | 0 <= i < r.objects ensures ptr <= ObjectAt(r, ptr, i) < ptr + ObjectSpace(r) {
        ObjectInside(r, ptr, i);
      }
    } else {
      var s, n := IntSize(r), r.objects;
      assert (n - 1) * s == n * s - s;
      assert ObjectAt(r, ptr, n - 1) == ptr + ObjectSpace(r);
    }
  }

  // The objects of a slab, with what belongs to them, do not overlap.
  lemma ObjectsApart(r: Request, ptr: nat, i: nat, j: nat)
    requires i < j
    ensures End(r, ObjectAt(r, ptr, i)) <= First(r, ObjectAt(r, ptr, j))
  {
    var s := IntSize(r);
    assert (i + 1) * s <= j * s by { NoMore(i + 1, j, s); }
    assert (i + 1) * s == i * s + s;
  }

  lemma IntSizeAligned(r: Request)
    requires r.align > 1
    ensures IntSize(r) % r.align == 0
  {
    RoundUpIsMultiple(r.size + (if r.redZone then 2 * REDZONE else 0) + (if r.ownership then OWNER else 0), r.align);
  }

  lemma OffsetAligned(r: Request, ptr: nat)
    requires r.align > 1
    ensures (ptr + Offset(r, ptr)) % r.align == 0
  {
    RoundUpIsMultiple(ptr + Front(r), r.align);
  }

  // Every object is aligned.
  lemma ObjectsAligned(r: Request, ptr: nat, i: nat)
    requires r.align > 1
    ensures ObjectAt(r, ptr, i) % r.align == 0
  {
    IntSizeAligned(r);
    OffsetAligned(r, ptr);
    hide IntSize, Offset;
    StrideAligned(ptr + Offset(r, ptr), IntSize(r), i, r.align);
  }

  lemma StrideAligned(a: int, s: int, i: nat, n: int)
    requires n > 0 && s >= 0 && a % n == 0 && s % n == 0
    ensures (a + i * s) % n == 0
  {
    var q := s / n;
    assert s == q * n;
    assert i * s == (i * q) * n by { assert i * (q * n) == (i * q) * n; }
    assert i * q >= 0;
    Scaled(i * q, n);
    SumOfMultiples(a, i * s, n);
  }

  // From an index to the object and back; the assertion of get_object_index holds.
  lemma IndexInverse(r: Request, ptr: nat, i: int)
    requires IntSize(r) > 0
    ensures IndexOf(r, ptr, ObjectAt(r, ptr, i)) == i
    ensures (ObjectAt(r, ptr, i) - ptr - Offset(r, ptr)) % IntSize(r) == 0
  {
    DivUnique(i * IntSize(r), i, 0, IntSize(r));
    assert ObjectAt(r, ptr, i) - ptr - Offset(r, ptr) == i * IntSize(r);
  }

  // How much of the guess is left over: what the padding did not use, and one guard word.
  lemma GuessSlack(r: Request, ptr: nat)
    requires r.objects > 0
    ensures var last := ObjectAt(r, ptr, r.objects - 1);
            ptr + ObjectSpace(r) - End(r, last) ==
            (IntSize(r) - Front(r) - r.size - Behind(r)) + (r.align - Pad(r, ptr + Front(r))) + Behind(r)
  {
    var s, n := IntSize(r), r.objects;
    assert (n - 1) * s == n * s - s;
  }
}
