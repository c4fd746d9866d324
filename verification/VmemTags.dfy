// The linked structures of kernel/mm/vmem.c: boundary tags, threaded on the ordered tag list
// and on one free list per power of two, and spans with their hash of tags in use.
module VmemTags {
  import opened Extents
  import opened ExtentRuns
  import opened Sequences

  class Tag {
    const addr: nat
    var size: nat
    var used: bool
    var next: Tag?
    var prev: Tag?
    var flNext: Tag?
    var flPrev: Tag?
    ghost const span: Range  // the span this tag cuts up
    ghost const slot: nat    // its place in that span's hash

    constructor (addr: nat, size: nat, ghost span: Range, ghost q: nat)
      requires q > 0 && span.addr <= addr
      ensures this.addr == addr && this.size == size && !used && this.span == span && slot == Slot(span, addr, q)
      ensures next == null && prev == null && flNext == null && flPrev == null
    {
      this.addr, this.size, used, this.span, slot := addr, size, false, span, Slot(span, addr, q);
      next, prev, flNext, flPrev := null, null, null, null;
    }

    ghost function Value(): Extent
      reads this`size, this`used
    {
      Extent(addr, size, used, span)
    }
  }

  class Span {
    const addr: nat
    const size: nat
    const hash: array<Tag?>
    var next: Span?

    constructor (addr: nat, size: nat, slots: nat)
      ensures this.addr == addr && this.size == size && next == null
      ensures fresh(hash) && hash.Length == slots && forall k :: 0 <= k < slots ==> hash[k] == null
    {
      this.addr, this.size, next := addr, size, null;
      hash := new Tag?[slots](_ => null);
    }

    ghost function R(): Range { Range(addr, size) }
  }

  ghost function At(s: seq<Tag>, k: int): Tag? { if 0 <= k < |s| then s[k] else null }

  ghost function Inserted(s: seq<Tag>, k: nat, x: Tag): (u: seq<Tag>)
    requires k <= |s|
    ensures |u| == |s| + 1
    ensures forall i {:trigger At(u, i)} :: At(u, i) == if i < k then At(s, i) else if i == k then x else At(s, i - 1)
  {
    s[..k] + [x] + s[k..]
  }

  lemma InsertedMembers(s: seq<Tag>, k: nat, x: Tag)
    requires k <= |s|
    ensures forall t :: t in Inserted(s, k, x) <==> t in s || t == x
  {
    assert s == s[..k] + s[k..];
  }

  ghost function Removed(s: seq<Tag>, k: nat): (u: seq<Tag>)
    requires k < |s|
    ensures |u| == |s| - 1
    ensures forall i {:trigger At(u, i)} :: At(u, i) == if i < k then At(s, i) else At(s, i + 1)
  {
    s[..k] + s[k + 1..]
  }

  // head is the first of the tags s, chained by next and prev; stated from position i on.
  ghost predicate LinkedFrom(s: seq<Tag>, i: nat)
    reads s`next, s`prev
    decreases |s| - i
  {
    i >= |s| || (s[i].next == At(s, i + 1) && s[i].prev == At(s, i - 1) && s[i] !in s[i + 1..] && LinkedFrom(s, i + 1))
  }

  ghost predicate Linked(head: Tag?, s: seq<Tag>)
    reads s`next, s`prev
  {
    head == At(s, 0) && LinkedFrom(s, 0)
  }

  ghost predicate LinkedAll(s: seq<Tag>, i: nat)
    reads s`next, s`prev
  {
    && (forall j, k :: i <= j < k < |s| ==> s[j] != s[k])
    && (forall j {:trigger s[j].next} :: i <= j < |s| ==> s[j].next == At(s, j + 1))
    && (forall j {:trigger s[j].prev} :: i <= j < |s| ==> s[j].prev == At(s, j - 1))
  }

  lemma {:induction false} LinkedFromIsAll(s: seq<Tag>, i: nat)
    ensures LinkedFrom(s, i) <==> LinkedAll(s, i)
    decreases |s| - i
  {
    if i < |s| { LinkedFromIsAll(s, i + 1); }
  }

  lemma LinkedDistinct(head: Tag?, s: seq<Tag>)
    requires Linked(head, s)
    ensures Distinct(s)
  {
    LinkedFromIsAll(s, 0);
  }

  // The same for a free list, from position i on.
  ghost predicate FlFrom(s: seq<Tag>, i: nat)
    reads s`flNext, s`flPrev
    decreases |s| - i
  {
    i >= |s| || (s[i].flNext == At(s, i + 1) && s[i].flPrev == At(s, i - 1) && s[i] !in s[i + 1..] && FlFrom(s, i + 1))
  }

  ghost predicate FlLinked(head: Tag?, s: seq<Tag>)
    reads s`flNext, s`flPrev
  {
    head == At(s, 0) && FlFrom(s, 0)
  }

  ghost predicate FlAll(s: seq<Tag>, i: nat)
    reads s`flNext, s`flPrev
  {
    && (forall j, k :: i <= j < k < |s| ==> s[j] != s[k])
    && (forall j {:trigger s[j].flNext} :: i <= j < |s| ==> s[j].flNext == At(s, j + 1))
    && (forall j {:trigger s[j].flPrev} :: i <= j < |s| ==> s[j].flPrev == At(s, j - 1))
  }

  lemma {:induction false} FlFromIsAll(s: seq<Tag>, i: nat)
    ensures FlFrom(s, i) <==> FlAll(s, i)
    decreases |s| - i
  {
    if i < |s| { FlFromIsAll(s, i + 1); }
  }

  ghost function Values(s: seq<Tag>): (v: seq<Extent>)
    reads s`size, s`used
    ensures |v| == |s| && forall i :: 0 <= i < |s| ==> v[i] == s[i].Value()
  {
    if s == [] then [] else [s[0].Value()] + Values(s[1..])
  }

  lemma RemovedMembers(s: seq<Tag>, bt: Tag, k: nat)
    requires Distinct(s) && k < |s| && s[k] == bt
    ensures forall i {:trigger Removed(s, k)[i]} :: 0 <= i < |s| - 1 ==> Removed(s, k)[i] in s && Removed(s, k)[i] != bt
    ensures forall t :: t in s && t != bt ==> t in Removed(s, k)
  {
    assert s == s[..k] + [bt] + s[k + 1..];
  }

  lemma RemovedSubset(s: seq<Tag>, k: nat)
    requires k < |s|
    ensures forall i :: 0 <= i < |s| - 1 ==> Removed(s, k)[i] in s
  {
    forall i | 0 <= i < |s| - 1 ensures Removed(s, k)[i] in s { assert Removed(s, k)[i] == At(Removed(s, k), i); }
  }

  // rem_freelist on one list: returns its new head.
  method FlUnlink(head: Tag?, bt: Tag, ghost s: seq<Tag>) returns (h: Tag?, ghost u: seq<Tag>)
    requires FlLinked(head, s) && bt in s
    modifies s`flNext, s`flPrev
    ensures FlLinked(h, u) && bt.flNext == null && bt.flPrev == null
    ensures forall i :: 0 <= i < |u| ==> u[i] in s && u[i] != bt
    ensures forall t :: t in s && t != bt ==> t in u
  {
    FlFromIsAll(s, 0);
    ghost var k :| 0 <= k < |s| && s[k] == bt;
    RemovedMembers(s, bt, k);
    h := FlUnlinkAt(head, bt, s, k);
    u := Removed(s, k);
  }

  method FlUnlinkAt(head: Tag?, bt: Tag, ghost s: seq<Tag>, ghost k: nat) returns (h: Tag?)
    requires FlLinked(head, s) && k < |s| && s[k] == bt
    modifies s`flNext, s`flPrev
    ensures FlLinked(h, Removed(s, k)) && bt.flNext == null && bt.flPrev == null
  {
    FlFromIsAll(s, 0);
    h := head;
    if head == bt { h := bt.flNext; }
    if bt.flPrev != null { bt.flPrev.flNext := bt.flNext; }
    if bt.flNext != null { bt.flNext.flPrev := bt.flPrev; }
    bt.flNext := null;
    bt.flPrev := null;
    ghost var u := Removed(s, k);
    forall i | 0 <= i < |u| ensures u[i].flNext == At(u, i + 1) && u[i].flPrev == At(u, i - 1) {
      assert u[i] == At(u, i);
    }
    FlFromIsAll(u, 0);
  }

  // add_freelist on one list: bt becomes its head.
  method FlPush(head: Tag?, bt: Tag, ghost s: seq<Tag>)
    requires FlLinked(head, s) && bt !in s
    modifies s`flPrev, bt`flNext, bt`flPrev
    ensures FlLinked(bt, [bt] + s)
  {
    FlFromIsAll(s, 0);
    if head != null { head.flPrev := bt; }
    bt.flPrev := null;
    bt.flNext := head;
    FlFromIsAll([bt] + s, 0);
  }

  // Which free list every listed tag is on: the lists and the table agree.
  ghost predicate Members(lists: seq<seq<Tag>>, on: map<Tag, nat>) {
    && (forall p, k :: 0 <= p < |lists| && 0 <= k < |lists[p]| ==> lists[p][k] in on && on[lists[p][k]] == p)
    && (forall t :: t in on ==> on[t] < |lists| && t in lists[on[t]])
  }

  lemma MembersRemove(lists: seq<seq<Tag>>, on: map<Tag, nat>, bt: Tag, u: seq<Tag>)
    requires Members(lists, on) && bt in on
    requires forall i :: 0 <= i < |u| ==> u[i] in lists[on[bt]] && u[i] != bt
    requires forall t :: t in lists[on[bt]] && t != bt ==> t in u
    ensures Members(lists[on[bt] := u], on - {bt})
  {
  }

  lemma MembersAdd(lists: seq<seq<Tag>>, on: map<Tag, nat>, bt: Tag, p: nat)
    requires Members(lists, on) && bt !in on && p < |lists|
    ensures Members(lists[p := [bt] + lists[p]], on[bt := p])
    ensures bt !in lists[p]
  {
  }

  // vmem_al_splittag: the right end of bt becomes a tag of its own.
  method SplitTag(bt: Tag, size: nat, ghost head: Tag?, ghost s: seq<Tag>, ghost k: nat, ghost q: nat)
    returns (tmp: Tag)
    requires q > 0 && bt.span.addr <= bt.addr
    requires Linked(head, s) && k < |s| && s[k] == bt && 0 < size < bt.size && !bt.used
    modifies bt`size, s`next, s`prev
    ensures fresh(tmp) && tmp.span == bt.span && !tmp.used && tmp.flNext == null && tmp.flPrev == null
    ensures bt.size == old(bt.size) - size && tmp.size == size && tmp.addr == bt.addr + bt.size
    ensures tmp.slot == Slot(tmp.span, tmp.addr, q)
    ensures Linked(head, Inserted(s, k + 1, tmp))
  {
    bt.size := bt.size - size;
    tmp := new Tag(bt.addr + bt.size, size, bt.span, q);
    LinkAfter(bt, tmp, head, s, k);
  }

  method LinkAfter(bt: Tag, tmp: Tag, ghost head: Tag?, ghost s: seq<Tag>, ghost k: nat)
    requires Linked(head, s) && k < |s| && s[k] == bt && tmp !in s
    modifies tmp`next, tmp`prev, s`next, s`prev
    ensures Linked(head, Inserted(s, k + 1, tmp))
  {
    LinkedFromIsAll(s, 0);
    tmp.prev := bt;
    tmp.next := bt.next;
    if tmp.next != null { tmp.next.prev := tmp; }
    bt.next := tmp;
    ghost var u := Inserted(s, k + 1, tmp);
    forall i | 0 <= i < |u| ensures u[i].next == At(u, i + 1) && u[i].prev == At(u, i - 1) {
      assert u[i] == At(u, i);
    }
    LinkedFromIsAll(u, 0);
  }

  // The melting step of vmem_free: the tag at k takes over its right neighbour.
  method Absorb(left: Tag, right: Tag, ghost head: Tag?, ghost s: seq<Tag>, ghost k: nat)
    requires Linked(head, s) && k + 1 < |s| && s[k] == left && s[k + 1] == right
    modifies left`size, s`next, s`prev
    ensures left.size == old(left.size) + right.size
    ensures Linked(head, Removed(s, k + 1))
  {
    LinkedFromIsAll(s, 0);
    left.size := left.size + right.size;
    left.next := right.next;
    if right.next != null { right.next.prev := left; }
    ghost var u := Removed(s, k + 1);
    forall i | 0 <= i < |u| ensures u[i].next == At(u, i + 1) && u[i].prev == At(u, i - 1) {
      assert u[i] == At(u, i);
    }
    LinkedFromIsAll(u, 0);
  }

  // The insertion of vmem_add: bt goes after the first k tags.
  method InsertTag(head: Tag?, insert: Tag?, bt: Tag, ghost s: seq<Tag>, ghost k: nat) returns (h: Tag?)
    requires Linked(head, s) && k <= |s| && insert == At(s, k - 1) && bt !in s
    modifies bt`next, bt`prev, s`next, s`prev
    ensures Linked(h, Inserted(s, k, bt))
  {
    LinkedFromIsAll(s, 0);
    h := head;
    if insert == null {
      bt.next := head;
      bt.prev := null;
      h := bt;
    } else {
      bt.next := insert.next;
      bt.prev := insert;
    }
    if bt.prev != null { bt.prev.next := bt; }
    if bt.next != null { bt.next.prev := bt; }
    ghost var u := Inserted(s, k, bt);
    forall i | 0 <= i < |u| ensures u[i].next == At(u, i + 1) && u[i].prev == At(u, i - 1) {
      assert u[i] == At(u, i);
    }
    LinkedFromIsAll(u, 0);
  }

  ghost function SpanAt(s: seq<Span>, k: int): Span? { if 0 <= k < |s| then s[k] else null }

  ghost predicate SpanLinked(head: Span?, s: seq<Span>)
    reads s`next
  {
    && (forall i, j :: 0 <= i < j < |s| ==> s[i] != s[j])
    && head == SpanAt(s, 0)
    && forall i {:trigger s[i].next} :: 0 <= i < |s| ==> s[i].next == SpanAt(s, i + 1)
  }

  ghost function Ranges(s: seq<Span>): set<Range> { set sp | sp in s :: sp.R() }

  ghost function SpanInserted(s: seq<Span>, k: nat, x: Span): (u: seq<Span>)
    requires k <= |s|
    ensures |u| == |s| + 1
    ensures forall i {:trigger SpanAt(u, i)} ::
              SpanAt(u, i) == if i < k then SpanAt(s, i) else if i == k then x else SpanAt(s, i - 1)
  {
    s[..k] + [x] + s[k..]
  }

  // The span insertion of vmem_add: returns the new head.
  method InsertSpan(head: Span?, insert: Span?, span: Span, ghost s: seq<Span>, ghost k: nat) returns (h: Span?)
    requires SpanLinked(head, s) && k <= |s| && insert == SpanAt(s, k - 1) && span !in s
    modifies span`next, s`next
    ensures SpanLinked(h, SpanInserted(s, k, span))
  {
    h := head;
    if insert == null {
      span.next := head;
      h := span;
    } else {
      span.next := insert.next;
      insert.next := span;
    }
    ghost var u := SpanInserted(s, k, span);
    forall i | 0 <= i < |u| ensures u[i].next == SpanAt(u, i + 1) {
      assert u[i] == SpanAt(u, i);
    }
    forall i, j | 0 <= i < j < |u| ensures u[i] != u[j] {
      assert u[i] == SpanAt(u, i) && u[j] == SpanAt(u, j);
    }
  }

  lemma SpanInsertedMembers(s: seq<Span>, k: nat, x: Span)
    requires k <= |s|
    ensures forall i :: 0 <= i < |s| + 1 ==> SpanInserted(s, k, x)[i] in s || SpanInserted(s, k, x)[i] == x
    ensures forall t :: t in SpanInserted(s, k, x) <==> t in s || t == x
    ensures Ranges(SpanInserted(s, k, x)) == Ranges(s) + {x.R()}
  {
    assert s == s[..k] + s[k..];
  }

  // Spans in address order, apart, and with hashes of their own.
  ghost predicate InOrder(s: seq<Span>, q: nat) {
    && q > 0
    && (forall i, j :: 0 <= i < j < |s| ==> Limit(s[i].R()) <= s[j].addr && s[i].hash != s[j].hash)
    && (forall i :: 0 <= i < |s| ==> s[i].size > 0 && s[i].size % q == 0)
  }

  lemma InsertInOrder(s: seq<Span>, k: nat, x: Span, q: nat)
    requires InOrder(s, q) && k <= |s| && x.size > 0 && x.size % q == 0
    requires forall i :: 0 <= i < |s| ==> s[i].hash != x.hash && Apart(s[i].R(), x.R())
    requires forall i :: 0 <= i < k ==> s[i].addr < x.addr
    requires forall i :: k <= i < |s| ==> s[i].addr >= x.addr
    ensures InOrder(SpanInserted(s, k, x), q)
  {
    var u := SpanInserted(s, k, x);
    forall i | 0 <= i < |u| ensures u[i] == if i < k then s[i] else if i == k then x else s[i - 1] {
      assert u[i] == SpanAt(u, i);
    }
  }
}
