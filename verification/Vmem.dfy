// kernel/mm/vmem.c: an arena of boundary tags held in four structures at once.
module Vmem {
  import opened Extents
  import opened ExtentRuns
  import opened HighBits
  import opened VmemTags
  import opened Options
  import opened Sequences
  import Multiples

  datatype Flags = Flags(bestFit: bool, instant: bool, search: bool)

  class Arena {
    const quantum: nat
    const cacheBits: nat
    const freeCache: array<Tag?>
    const hasSource: bool
    var tags: Tag?
    var spans: Span?
    ghost var tagSeq: seq<Tag>
    ghost var spanSeq: seq<Span>
    ghost var freeSeqs: seq<seq<Tag>>  // the free lists, by class
    ghost var listed: map<Tag, nat>     // which of them a tag is on
    ghost var hashes: set<array<Tag?>>  // the hashes of the spans
    ghost var Repr: set<object>

    // The fields that vmem_create fills in. highbit asserts that at least one quantum is cached.
    constructor (quantum: nat, cacheMax: nat, hasSource: bool)
      requires quantum > 0 && HighBit(cacheMax / quantum) >= 0
      ensures Valid() && fresh(Repr) && View() == [] && spanSeq == []
      ensures this.quantum == quantum && this.hasSource == hasSource && cacheBits == HighBit(cacheMax / quantum) + 1
    {
      this.quantum, this.hasSource, cacheBits := quantum, hasSource, HighBit(cacheMax / quantum) + 1;
      freeCache := new Tag?[HighBit(cacheMax / quantum) + 1](_ => null);
      tags, spans := null, null;
      tagSeq, spanSeq, listed, hashes := [], [], map[], {};
      freeSeqs := seq(HighBit(cacheMax / quantum) + 1, _ => []);
      Repr := {this, freeCache};
      new;
      EmptyIsValid();
      hide Valid, View;
    }

    // vmem_create, with the initial span, if it is not empty.
    static method Create(base: nat, size: nat, quantum: nat, cacheMax: nat, hasSource: bool) returns (vmem: Arena)
      requires quantum > 0 && HighBit(cacheMax / quantum) >= 0 && size % quantum == 0
      ensures vmem.Valid() && fresh(vmem) && fresh(vmem.Repr)
      ensures vmem.View() == if size > 0 then [Whole(Range(base, size))] else []
      ensures vmem.quantum == quantum && vmem.hasSource == hasSource
      ensures vmem.cacheBits == HighBit(cacheMax / quantum) + 1
    {
      FirstSpan(Range(base, size));
      vmem := new Arena(quantum, cacheMax, hasSource);
      hide Arena.Valid, Arena.View, AddAt, HighBit, Whole;
      if size > 0 { vmem.Add(base, size); }
    }

    static lemma FirstSpan(r: Range)
      ensures AddAt([], r) == [Whole(r)]
    {
    }

    lemma EmptyIsValid()
      requires tags == null && spans == null && tagSeq == [] && spanSeq == [] && listed == map[] && hashes == {}
      requires |freeSeqs| == freeCache.Length == cacheBits && quantum > 0 && Repr == {this, freeCache}
      requires forall p :: 0 <= p < cacheBits ==> freeSeqs[p] == [] && freeCache[p] == null
      ensures Valid() && View() == []
    {
    }

    // ---- the invariant, one predicate per structure ----

    ghost predicate TagsOk()
      reads this`tags, this`tagSeq, tagSeq`next, tagSeq`prev
    {
      Linked(tags, tagSeq)
    }

    ghost function View(): seq<Extent>
      reads this`tagSeq, tagSeq`size, tagSeq`used
    {
      Values(tagSeq)
    }

    ghost predicate TilingOk()
      reads this`tagSeq, tagSeq`size, tagSeq`used
    {
      quantum > 0 && Tiled(View()) && Quantized(View(), quantum)
    }

    // The free list for a size, or -1 for sizes that are not cached.
    function CacheNum(size: nat): int
      requires quantum > 0
    {
      var pos := HighBit(size / quantum);
      if pos >= cacheBits then -1 else pos
    }

    ghost predicate ListsOk()
      reads this`tagSeq, this`freeSeqs, this`listed, freeCache, tagSeq`flNext, tagSeq`flPrev
    {
      MembersOk() && LinksOk() && UnlistedOk()
    }

    ghost predicate MembersOk()
      reads this`tagSeq, this`freeSeqs, this`listed
    {
      && |freeSeqs| == freeCache.Length == cacheBits
      && Members(freeSeqs, listed)
      && forall t :: t in listed ==> t in tagSeq
    }

    ghost predicate LinksOk()
      requires MembersOk()
      reads this`tagSeq, this`freeSeqs, this`listed, freeCache, tagSeq`flNext, tagSeq`flPrev
    {
      forall p :: 0 <= p < cacheBits ==> FlLinked(freeCache[p], freeSeqs[p])
    }

    ghost predicate UnlistedOk()
      reads this`tagSeq, this`listed, tagSeq`flNext, tagSeq`flPrev
    {
      forall t :: t in tagSeq && t !in listed ==> t.flNext == null && t.flPrev == null
    }

    // A free list holds exactly the free tags of its class, apart from tags in transit.
    ghost predicate ClassOk(t: Tag)
      requires quantum > 0
      reads this`listed, t`size, t`used
    {
      && t.size >= quantum
      && (t in listed <==> !t.used && CacheNum(t.size) >= 0)
      && (t in listed ==> listed[t] == CacheNum(t.size))
    }

    ghost predicate ClassesOk(except: set<Tag>)
      reads this`tagSeq, this`listed, tagSeq`size, tagSeq`used
    {
      quantum > 0 && forall t :: t in tagSeq && t !in except ==> ClassOk(t)
    }

    // What a change to one free list leaves alone: the other lists, and the tags on none.
    twostate lemma OthersStand(pos: nat, new bt: Tag)
      requires old(ListsOk()) && pos < cacheBits && tagSeq == old(tagSeq)
      requires freeSeqs == old(freeSeqs) && listed == old(listed) && freeCache[..] == old(freeCache[..])
      requires forall t: Tag :: t in tagSeq && t !in old(freeSeqs)[pos] && t != bt ==>
                 t.flNext == old(t.flNext) && t.flPrev == old(t.flPrev)
      requires bt in listed ==> listed[bt] == pos
      ensures forall p :: 0 <= p < cacheBits && p != pos ==> FlLinked(freeCache[p], freeSeqs[p])
      ensures forall t :: t in tagSeq && t !in listed && t != bt ==> t.flNext == null && t.flPrev == null
    {
      forall p | 0 <= p < cacheBits && p != pos ensures FlLinked(freeCache[p], freeSeqs[p]) {
        assert old(FlLinked(freeCache[p], freeSeqs[p]));
        assert freeCache[p] == old(freeCache[..])[p];
      }
    }

    // The tags that are not excepted now have the class they had.
    twostate lemma ClassesStand(new except: set<Tag>, new except': set<Tag>)
      requires old(quantum > 0 && forall t :: t in tagSeq && t !in except ==> ClassOk(t))
      requires forall t: Tag :: t in tagSeq && t !in except' ==>
                 && t in old(tagSeq) && t !in except && t.size == old(t.size) && t.used == old(t.used)
                 && (t in listed <==> t in old(listed)) && (t in listed ==> listed[t] == old(listed)[t])
      ensures ClassesOk(except')
    {
      forall t | t in tagSeq && t !in except' ensures ClassOk(t) {
        assert old(ClassOk(t));
      }
    }

    method RemFreelist(bt: Tag)
      requires quantum > 0 && ListsOk() && bt in tagSeq && bt in listed
      requires bt.size >= quantum && listed[bt] == CacheNum(bt.size)
      modifies this`freeSeqs, this`listed, freeCache, tagSeq`flNext, tagSeq`flPrev
      ensures ListsOk() && listed == old(listed) - {bt}
    {
      var pos := CacheNum(bt.size);
      hide FlLinked, CacheNum;
      var h;
      ghost var u;
      assert LinksOk();
      h, u := FlUnlink(freeCache[pos], bt, freeSeqs[pos]);
      OthersStand(pos, bt);
      MembersRemove(freeSeqs, listed, bt, u);
      hide Members;
      SetList(pos, h, u, listed - {bt});
    }

    method AddFreelist(bt: Tag)
      requires quantum > 0 && ListsOk() && bt in tagSeq && bt !in listed
      requires bt.size >= quantum && CacheNum(bt.size) >= 0
      modifies this`freeSeqs, this`listed, freeCache, tagSeq`flNext, tagSeq`flPrev
      ensures ListsOk() && listed == old(listed)[bt := CacheNum(bt.size)]
    {
      var pos := CacheNum(bt.size);
      hide FlLinked, CacheNum;
      ghost var s := freeSeqs[pos];
      assert LinksOk();
      MembersAdd(freeSeqs, listed, bt, pos);
      FlPush(freeCache[pos], bt, s);
      OthersStand(pos, bt);
      hide Members;
      SetList(pos, bt, [bt] + s, listed[bt := pos]);
    }

    // The head of one list becomes h; the other lists stand.
    method SetList(pos: nat, h: Tag?, ghost u: seq<Tag>, ghost on: map<Tag, nat>)
      requires |freeSeqs| == freeCache.Length == cacheBits && pos < cacheBits && FlLinked(h, u)
      requires forall p :: 0 <= p < cacheBits && p != pos ==> FlLinked(freeCache[p], freeSeqs[p])
      requires Members(freeSeqs[pos := u], on) && forall t :: t in on ==> t in tagSeq
      requires forall t :: t in tagSeq && t !in on ==> t.flNext == null && t.flPrev == null
      modifies this`freeSeqs, this`listed, freeCache
      ensures ListsOk() && listed == on
    {
      hide FlLinked, Members;
      freeCache[pos] := h;
      freeSeqs := freeSeqs[pos := u];
      listed := on;
      assert MembersOk();
    }

    // ---- spans and their hashes ----

    ghost predicate SpansOk()
      reads this`spans, this`spanSeq, spanSeq`next, this`tagSeq, tagSeq`size, tagSeq`used
    {
      && SpanLinked(spans, spanSeq) && InOrder(spanSeq, quantum)
      && Ranges(spanSeq) == Spans(View())
    }

    // The hashes hold exactly the tags in use, each at its slot, apart from one tag in transit.
    ghost predicate HashOk(except: Tag?)
      reads this`spanSeq, this`hashes, hashes, this`tagSeq, tagSeq`used
    {
      && quantum > 0
      && (forall t :: t in tagSeq ==> t.span.addr <= t.addr && t.slot == Slot(t.span, t.addr, quantum))
      && (forall sp :: sp in spanSeq ==> sp.hash in hashes && sp.hash.Length == sp.size / quantum)
      && freeCache !in hashes
      && (forall sp, k :: sp in spanSeq && 0 <= k < sp.hash.Length && sp.hash[k] != null ==>
            sp.hash[k] in tagSeq && sp.hash[k].used && sp.hash[k].span == sp.R() && sp.hash[k].slot == k)
      && (forall sp, t :: sp in spanSeq && t in tagSeq && t.used && t != except && t.span == sp.R() ==>
            t.slot < sp.hash.Length && sp.hash[t.slot] == t)
    }

    method GetSpan(a: nat) returns (span: Span?)
      requires SpansOk()
      ensures span != null ==> span in spanSeq && span.addr <= a < span.addr + span.size
      ensures span == null ==> forall sp :: sp in spanSeq ==> !(sp.addr <= a < sp.addr + sp.size)
    {
      span := spans;
      ghost var k := 0;
      while span != null
        invariant k <= |spanSeq| && span == SpanAt(spanSeq, k)
        invariant forall i :: 0 <= i < k ==> !(spanSeq[i].addr <= a < spanSeq[i].addr + spanSeq[i].size)
        decreases |spanSeq| - k
      {
        if a >= span.addr && a < span.addr + span.size { break; }
        span := span.next;
        k := k + 1;
      }
    }

    // Cuts the right end off bt: a free tag that is on no list yet.
    method SplitOff(bt: Tag, size: nat, ghost k: nat) returns (t: Tag)
      requires TagsOk() && ListsOk() && ClassesOk({bt}) && bt !in listed && HashOk(null)
      requires k < |tagSeq| && tagSeq[k] == bt && !bt.used && 0 < size < bt.size
      modifies this`tagSeq, tagSeq`next, tagSeq`prev, bt`size
      ensures fresh(t) && !t.used && t.size == size && bt.size == old(bt.size) - size
      ensures t.Value() == Taken(old(bt.Value()), size).(used := false)
      ensures tagSeq == Inserted(old(tagSeq), k + 1, t)
      ensures forall u :: u in tagSeq <==> u in old(tagSeq) || u == t
      ensures TagsOk() && ListsOk() && ClassesOk({bt, t}) && HashOk(null) && bt !in listed && t !in listed
    {
      assert bt.span.addr <= bt.addr;
      hide ListsOk, HashOk, Linked;
      ListedAreTags();
      t := SplitTag(bt, size, tags, tagSeq, k, quantum);
      InsertedMembers(tagSeq, k + 1, t);
      tagSeq := Inserted(tagSeq, k + 1, t);
      hide Inserted;
      ListsStand();
      HashStands();
      ClassesStand({bt}, {bt, t});
    }

    twostate lemma HashStands()
      requires old(HashOk(null)) && old(spanSeq) == spanSeq && old(hashes) == hashes
      requires forall sp, k :: sp in spanSeq && 0 <= k < sp.hash.Length ==> sp.hash[k] == old(sp.hash[k])
      requires forall t: Tag :: t in old(tagSeq) ==> t in tagSeq && t.used == old(t.used)
      requires forall t: Tag :: t in tagSeq && t !in old(tagSeq) ==>
                 !t.used && t.span.addr <= t.addr && t.slot == Slot(t.span, t.addr, quantum)
      ensures HashOk(null)
    {
    }

    twostate lemma ListsStand()
      requires old(ListsOk())
      requires old(freeSeqs) == freeSeqs && old(listed) == listed && old(freeCache[..]) == freeCache[..]
      requires forall t: Tag :: t in old(tagSeq) ==>
                 t in tagSeq && t.flNext == old(t.flNext) && t.flPrev == old(t.flPrev)
      requires forall t: Tag :: t in tagSeq && t !in old(tagSeq) ==> t.flNext == null && t.flPrev == null
      ensures ListsOk()
    {
      forall p | 0 <= p < cacheBits ensures FlLinked(freeCache[p], freeSeqs[p]) {
        assert old(FlLinked(freeCache[p], freeSeqs[p]));
        assert freeCache[p] == old(freeCache[..])[p];
      }
    }

    twostate lemma HashLacks(t: Tag)
      requires old(HashOk(null)) && old(spanSeq) == spanSeq && old(hashes) == hashes && !old(t.used) && t in old(tagSeq)
      requires forall sp, k :: sp in spanSeq && 0 <= k < sp.hash.Length ==> sp.hash[k] == old(sp.hash[k])
      requires tagSeq == old(tagSeq) && forall u: Tag :: u in tagSeq && u != t ==> u.used == old(u.used)
      ensures HashOk(t) && Unrecorded(t)
    {
    }

    // No slot holds the tag.
    ghost predicate Unrecorded(t: Tag)
      reads this`spanSeq, this`hashes, hashes
    {
      forall sp, k :: sp in spanSeq && sp.hash in hashes && 0 <= k < sp.hash.Length ==> sp.hash[k] != t
    }

    // SplitOff, and the left end goes back on a free list.
    method SplitAndList(bt: Tag, size: nat, ghost k: nat) returns (t: Tag)
      requires TagsOk() && ListsOk() && ClassesOk({bt}) && bt !in listed && HashOk(null)
      requires k < |tagSeq| && tagSeq[k] == bt && !bt.used && quantum <= size && size + quantum <= bt.size
      modifies this`tagSeq, this`freeSeqs, this`listed, freeCache
      modifies tagSeq`flNext, tagSeq`flPrev, tagSeq`next, tagSeq`prev, bt`size
      ensures fresh(t) && !t.used && t.size == size && bt.size == old(bt.size) - size
      ensures t.Value() == Taken(old(bt.Value()), size).(used := false)
      ensures tagSeq == Inserted(old(tagSeq), k + 1, t)
      ensures forall u :: u in tagSeq <==> u in old(tagSeq) || u == t
      ensures TagsOk() && ListsOk() && ClassesOk({t}) && HashOk(null) && t !in listed
    {
      hide ListsOk, LinkedFrom;
      t := SplitOff(bt, size, k);
      label L:
      if CacheNum(bt.size) >= 0 {
        AddFreelist(bt);
        assert HashOk(null) by { HashStands@L(); }
        assert ClassesOk({t});
      }
    }

    // vmem_alloc once a tag is chosen: bt has left its free list, its right end gets used.
    method Take(bt: Tag, size: nat, ghost k: nat) returns (t: Tag)
      requires TagsOk() && ListsOk() && ClassesOk({bt}) && bt !in listed && HashOk(null)
      requires k < |tagSeq| && tagSeq[k] == bt && !bt.used && quantum <= size
      requires bt.size == size || size + quantum <= bt.size
      modifies this`tagSeq, this`freeSeqs, this`listed, freeCache
      modifies tagSeq`flNext, tagSeq`flPrev, tagSeq`next, tagSeq`prev, bt`size, bt`used
      ensures if old(bt.size) == size then t == bt && tagSeq == old(tagSeq)
              else fresh(t) && tagSeq == Inserted(old(tagSeq), k + 1, t) && bt.size == old(bt.size) - size && !bt.used
      ensures t.Value() == Taken(old(bt.Value()), size)
      ensures t in tagSeq && forall u :: u in tagSeq <==> u in old(tagSeq) || u == t
      ensures TagsOk() && ListsOk() && ClassesOk({}) && HashOk(t) && Unrecorded(t)
    {
      hide ListsOk, LinkedFrom;
      t := bt;
      if bt.size - size >= quantum {
        t := SplitAndList(bt, size, k);
      }
      label L:
      t.used := true;
      HashLacks@L(t);
    }

    twostate lemma ViewTaken(new size: nat, k: nat, new t: Tag)
      requires k < old(|tagSeq|) && 0 < size <= old(tagSeq[k].size)
      requires if old(tagSeq[k].size) == size then t == old(tagSeq[k]) && tagSeq == old(tagSeq)
               else && tagSeq == Inserted(old(tagSeq), k + 1, t)
                    && old(tagSeq)[k].size == old(tagSeq[k].size) - size && !old(tagSeq)[k].used && !old(tagSeq[k].used)
      requires t.Value() == Taken(old(tagSeq[k].Value()), size)
      requires forall i :: 0 <= i < old(|tagSeq|) && i != k ==> old(tagSeq[i].Value()) == old(tagSeq)[i].Value()
      ensures View() == AllocAt(old(View()), k, size)
    {
      var v, mid := old(View()), Cut(old(View())[k], size);
      forall i | 0 <= i < |tagSeq| ensures View()[i] == Spliced(v, k, k + 1, mid, i) {
        TagTaken(size, k, t, i);
      }
      SplicedAll(v, k, k + 1, mid, View());
    }

    twostate lemma TagTaken(new size: nat, k: nat, new t: Tag, new i: nat)
      requires k < old(|tagSeq|) && 0 < size <= old(tagSeq[k].size) && i < |tagSeq|
      requires if old(tagSeq[k].size) == size then t == old(tagSeq[k]) && tagSeq == old(tagSeq)
               else && tagSeq == Inserted(old(tagSeq), k + 1, t)
                    && old(tagSeq)[k].size == old(tagSeq[k].size) - size && !old(tagSeq)[k].used && !old(tagSeq[k].used)
      requires t.Value() == Taken(old(tagSeq[k].Value()), size)
      requires forall i :: 0 <= i < old(|tagSeq|) && i != k ==> old(tagSeq[i].Value()) == old(tagSeq)[i].Value()
      ensures View()[i] == Spliced(old(View()), k, k + 1, Cut(old(View())[k], size), i)
    {
      assert tagSeq[i] == At(tagSeq, i);
    }

    // Takes a free tag off its list, if it is small enough to be on one.
    method Withdraw(bt: Tag, ghost except: set<Tag>)
      requires ListsOk() && ClassesOk(except) && bt in tagSeq && bt !in except && !bt.used && HashOk(null)
      modifies this`freeSeqs, this`listed, freeCache, tagSeq`flNext, tagSeq`flPrev
      ensures ListsOk() && ClassesOk(except + {bt}) && bt !in listed && HashOk(null)
      ensures forall t :: t in listed ==> t in old(listed)
    {
      hide ListsOk;
      assert ClassOk(bt);
      label L:
      if CacheNum(bt.size) >= 0 {
        RemFreelist(bt);
        assert HashOk(null) by { HashStands@L(); }
      }
    }

    method HashSlot(span: Span, a: nat) returns (k: nat)
      requires quantum > 0 && span.addr <= a
      ensures k == Slot(span.R(), a, quantum)
    {
      k := (a - span.addr) / quantum;
    }

    // The tag goes into its slot of the hash of its span, which was empty.
    method Record(t: Tag) returns (ghost span: Span)
      requires SpansOk() && TilingOk() && HashOk(t) && Unrecorded(t) && t in tagSeq && t.used
      modifies hashes
      ensures HashOk(null) && span in spanSeq && span.R() == t.span && t.slot < span.hash.Length
      ensures old(span.hash[t.slot]) == null && span.hash[t.slot] == t
      ensures forall sp, k :: sp in spanSeq && 0 <= k < sp.hash.Length && !(sp == span && k == t.slot) ==>
                sp.hash[k] == old(sp.hash[k])
    {
      hide TilingOk, SpansOk, Slot;
      var found := GetSpan(t.addr);
      ghost var k :| 0 <= k < |tagSeq| && tagSeq[k] == t;
      InItsSpan(t, k, found);
      SlotsApart(t);
      var home: Span := found;
      span := home;
      SpansApart(home);
      var slot := HashSlot(home, t.addr);
      assert home.hash[slot] == null;
      home.hash[slot] := t;
      HashGains(t, home);
    }

    twostate lemma HashGains(t: Tag, new span: Span)
      requires old(HashOk(t)) && old(spanSeq) == spanSeq && old(hashes) == hashes && old(tagSeq) == tagSeq &&
                t in tagSeq && t.used && span in spanSeq
      requires span.R() == t.span && t.slot < span.hash.Length && span.hash[t.slot] == t
      requires forall sp: Span :: sp in spanSeq && sp != span ==> sp.R() != span.R()
      requires forall sp: Span, k :: sp in spanSeq && 0 <= k < sp.hash.Length && !(sp == span && k == t.slot) ==>
                sp.hash[k] == old(sp.hash[k])
      requires forall u: Tag :: u in tagSeq ==> u.used == old(u.used)
      requires forall u: Tag :: u in tagSeq && u.used && u.span == t.span && u.slot == t.slot ==> u == t
      ensures HashOk(null)
    {
    }

    lemma SpansApart(span: Span)
      requires SpansOk() && span in spanSeq
      ensures forall sp :: sp in spanSeq && sp != span ==> sp.hash != span.hash && sp.R() != span.R()
    {
      forall sp | sp in spanSeq && sp != span ensures sp.hash != span.hash && sp.R() != span.R() {
        var i :| 0 <= i < |spanSeq| && spanSeq[i] == sp;
        var j :| 0 <= j < |spanSeq| && spanSeq[j] == span;
        assert i < j ==> Limit(sp.R()) <= span.addr;
        assert j < i ==> Limit(span.R()) <= sp.addr;
      }
    }

    // Two tags in use never share a slot.
    lemma SlotsApart(t: Tag)
      requires TilingOk() && t in tagSeq && quantum > 0
      requires forall u :: u in tagSeq ==> u.span.addr <= u.addr && u.slot == Slot(u.span, u.addr, quantum)
      ensures forall u :: u in tagSeq && u.span == t.span && u.slot == t.slot ==> u == t
    {
      var k :| 0 <= k < |tagSeq| && tagSeq[k] == t;
      forall u | u in tagSeq && u.span == t.span && u.slot == t.slot ensures u == t {
        var i :| 0 <= i < |tagSeq| && tagSeq[i] == u;
        var a, b := View()[i], View()[k];
        assert Inside(a) && OnQuantum(a, quantum) && Inside(b) && OnQuantum(b, quantum);
        SlotOfAddress(a, b.addr, quantum);
        SlotOfAddress(b, a.addr, quantum);
        Same(View(), i, k, if a.addr <= b.addr then b.addr else a.addr);
      }
    }

    lemma InItsSpan(t: Tag, k: nat, span: Span?)
      requires SpansOk() && TilingOk() && k < |tagSeq| && tagSeq[k] == t
      requires span != null ==> span in spanSeq && span.addr <= t.addr < span.addr + span.size
      requires span == null ==> forall sp :: sp in spanSeq ==> !(sp.addr <= t.addr < sp.addr + sp.size)
      ensures span != null && span.R() == t.span
      ensures t.span.addr <= t.addr && Slot(t.span, t.addr, quantum) < t.span.size / quantum
    {
      var e := View()[k];
      assert Inside(e) && OnQuantum(e, quantum);
      SlotOfAddress(e, e.addr, quantum);
      assert e in View() && e.span in Spans(View());
      var sp :| sp in spanSeq && sp.R() == t.span;
      if span != null { SpanUnique(sp, span, t.addr); }
    }

    lemma SpanUnique(a: Span, b: Span, x: nat)
      requires SpansOk() && a in spanSeq && b in spanSeq
      requires a.addr <= x < a.addr + a.size && b.addr <= x < b.addr + b.size
      ensures a == b
    {
      var i :| 0 <= i < |spanSeq| && spanSeq[i] == a;
      var j :| 0 <= j < |spanSeq| && spanSeq[j] == b;
      assert !(i < j) && !(j < i);
    }

    // The right neighbour of the tag at k, free like it and on no list, melts into it.
    method AbsorbAt(left: Tag, right: Tag, ghost k: nat)
      requires TagsOk() && ListsOk() && ClassesOk({left, right}) && HashOk(null)
      requires k + 1 < |tagSeq| && tagSeq[k] == left && tagSeq[k + 1] == right
      requires left !in listed && right !in listed && !left.used && !right.used
      modifies this`tagSeq, tagSeq`next, tagSeq`prev, left`size
      ensures tagSeq == Removed(old(tagSeq), k + 1) && left.size == old(left.size) + right.size
      ensures TagsOk() && ListsOk() && ClassesOk({left}) && HashOk(null) && left !in listed && left in tagSeq
      ensures View() == Join(old(View()), k)
    {
      hide ListsOk, HashOk, Linked, View;
      LinkedDistinct(tags, tagSeq);
      RemovedMembers(tagSeq, right, k + 1);
      assert Removed(tagSeq, k + 1)[k] == At(Removed(tagSeq, k + 1), k);
      Absorb(left, right, tags, tagSeq, k);
      tagSeq := Removed(tagSeq, k + 1);
      hide Removed, TagsOk;
      ListsShrink(right);
      HashShrinks(right);
      ViewJoined(k);
      ClassesStand({left, right}, {left});
    }

    twostate lemma ViewJoined(k: nat)
      requires k + 1 < old(|tagSeq|) && tagSeq == Removed(old(tagSeq), k + 1)
      requires old(tagSeq)[k].size == old(tagSeq[k].size) + old(tagSeq[k + 1].size) &&
                old(tagSeq)[k].used == old(tagSeq[k].used)
      requires forall i :: 0 <= i < old(|tagSeq|) && i != k ==> old(tagSeq[i].Value()) == old(tagSeq)[i].Value()
      ensures View() == Join(old(View()), k)
    {
      var v := old(View());
      forall i | 0 <= i < |tagSeq| ensures View()[i] == Join(v, k)[i] {
        TagJoined(k, i);
      }
    }

    twostate lemma TagJoined(k: nat, new i: nat)
      requires k + 1 < old(|tagSeq|) && tagSeq == Removed(old(tagSeq), k + 1) && i < |tagSeq|
      requires old(tagSeq)[k].size == old(tagSeq[k].size) + old(tagSeq[k + 1].size) &&
                old(tagSeq)[k].used == old(tagSeq[k].used)
      requires forall i :: 0 <= i < old(|tagSeq|) && i != k ==> old(tagSeq[i].Value()) == old(tagSeq)[i].Value()
      ensures View()[i] == Join(old(View()), k)[i]
    {
      assert tagSeq[i] == At(tagSeq, i);
    }

    twostate lemma ListsShrink(gone: Tag)
      requires old(ListsOk()) && gone !in old(listed)
      requires old(freeSeqs) == freeSeqs && old(listed) == listed && old(freeCache[..]) == freeCache[..]
      requires forall t: Tag :: t in tagSeq ==> t in old(tagSeq)
      requires forall t: Tag :: t in old(tagSeq) ==>
                (t in tagSeq || t == gone) && t.flNext == old(t.flNext) && t.flPrev == old(t.flPrev)
      ensures ListsOk()
    {
      forall p | 0 <= p < cacheBits ensures FlLinked(freeCache[p], freeSeqs[p]) {
        assert old(FlLinked(freeCache[p], freeSeqs[p]));
        assert freeCache[p] == old(freeCache[..])[p];
      }
    }

    twostate lemma HashShrinks(gone: Tag)
      requires old(HashOk(null)) && old(spanSeq) == spanSeq && old(hashes) == hashes && !old(gone.used)
      requires forall sp, k :: sp in spanSeq && 0 <= k < sp.hash.Length ==> sp.hash[k] == old(sp.hash[k])
      requires forall t: Tag :: t in tagSeq ==> t in old(tagSeq)
      requires forall t: Tag :: t in old(tagSeq) ==> (t in tagSeq || t == gone) && t.used == old(t.used)
      ensures HashOk(null)
    {
    }

    // ---- finding a tag ----

    ghost predicate Fits(t: Tag, n: nat)
      reads t`used, t`size
    {
      !t.used && t.size >= n
    }

    // Tag k is what a search of the list takes: the first that fits, or with best fit the first of the
    // smallest that do.
    ghost predicate Chosen(s: seq<Tag>, k: nat, n: nat, bestFit: bool)
      reads s`used, s`size
    {
      && k < |s| && Fits(s[k], n)
      && if bestFit then
           && (forall i :: 0 <= i < |s| && Fits(s[i], n) ==> s[k].size <= s[i].size)
           && (forall i :: 0 <= i < k && Fits(s[i], n) ==> s[k].size < s[i].size)
         else forall i :: 0 <= i < k ==> !Fits(s[i], n)
    }

    // vmem_alloc_search: the plain scan over all tags.
    method AllocSearch(rsize: nat, flags: Flags) returns (found: Tag?, ghost at: nat)
      requires TagsOk()
      ensures found == null ==> forall t :: t in tagSeq ==> !Fits(t, rsize)
      ensures found != null ==> Chosen(tagSeq, at, rsize, flags.bestFit) && tagSeq[at] == found
    {
      LinkedFromIsAll(tagSeq, 0);
      var bt := tags;
      found, at := null, 0;
      ghost var k := 0;
      while bt != null
        invariant k <= |tagSeq| && bt == At(tagSeq, k)
        invariant found == null ==> forall i :: 0 <= i < k ==> !Fits(tagSeq[i], rsize)
        invariant found != null ==> flags.bestFit && at < k && tagSeq[at] == found && Fits(found, rsize)
        invariant found != null ==> forall i :: 0 <= i < k && Fits(tagSeq[i], rsize) ==> found.size <= tagSeq[i].size
        invariant found != null ==> forall i :: 0 <= i < at && Fits(tagSeq[i], rsize) ==> found.size < tagSeq[i].size
        decreases |tagSeq| - k
      {
        if !bt.used && bt.size >= rsize {
          if !flags.bestFit { return bt, k; }
          if found == null || bt.size < found.size { found, at := bt, k; }
        }
        bt := bt.next;
        k := k + 1;
      }
    }

    // One free list of vmem_alloc_quantum; its tags are free, as the source asserts.
    method ScanList(pos: nat, rsize: nat, flags: Flags, best: Tag?) returns (found: Tag?, ghost at: nat)
      requires ListsOk() && pos < cacheBits
      requires best == null && forall t :: t in freeSeqs[pos] ==> !t.used
      ensures found == null ==> forall t :: t in freeSeqs[pos] ==> t.size < rsize
      ensures found != null ==> Chosen(freeSeqs[pos], at, rsize, flags.bestFit) && freeSeqs[pos][at] == found
    {
      ghost var s := freeSeqs[pos];
      FlFromIsAll(s, 0);
      var bt := freeCache[pos];
      found, at := best, 0;
      ghost var k := 0;
      while bt != null
        invariant k <= |s| && bt == At(s, k)
        invariant found == null ==> forall i :: 0 <= i < k ==> s[i].size < rsize
        invariant found != null ==> flags.bestFit && at < k && s[at] == found && found.size >= rsize
        invariant found != null ==> forall i :: 0 <= i < k && s[i].size >= rsize ==> found.size <= s[i].size
        invariant found != null ==> forall i :: 0 <= i < at && s[i].size >= rsize ==> found.size < s[i].size
        decreases |s| - k
      {
        if bt.size >= rsize {
          if !flags.bestFit { return bt, k; }
          if found == null || bt.size < found.size { found, at := bt, k; }
        }
        bt := bt.flNext;
        k := k + 1;
      }
    }

    function FirstClass(rsize: nat, flags: Flags): int
      requires quantum > 0
    {
      HighBit(rsize / quantum) + if flags.instant then 1 else 0
    }

    // vmem_alloc_quantum: the segregated search takes its tag from the lowest class, from the first one
    // on, that has a tag that fits.
    method AllocQuantum(rsize: nat, flags: Flags) returns (found: Tag?, ghost at: nat)
      requires quantum > 0 && ListsOk() && HighBit(rsize / quantum) >= 0
      requires forall t :: t in listed ==> !t.used
      ensures found == null ==> forall t :: t in listed && listed[t] >= FirstClass(rsize, flags) ==> t.size < rsize
      ensures found != null ==>
                && found in listed && FirstClass(rsize, flags) <= listed[found] < cacheBits
                && Chosen(freeSeqs[listed[found]], at, rsize, flags.bestFit) && freeSeqs[listed[found]][at] == found
                && forall t :: t in listed && FirstClass(rsize, flags) <= listed[t] < listed[found] ==> t.size < rsize
    {
      hide Chosen, Fits;
      found, at := null, 0;
      var pos := HighBit(rsize / quantum);
      if flags.instant { pos := pos + 1; }
      while pos < cacheBits
        invariant FirstClass(rsize, flags) <= pos && found == null
        invariant forall t :: t in listed && FirstClass(rsize, flags) <= listed[t] < pos ==> t.size < rsize
      {
        found, at := ScanList(pos, rsize, flags, found);
        if found != null {
          InTheList(freeSeqs[pos], at, rsize, flags.bestFit);
          return;
        }
        pos := pos + 1;
      }
    }

    lemma InTheList(s: seq<Tag>, k: nat, n: nat, bestFit: bool)
      requires Chosen(s, k, n, bestFit)
      ensures k < |s| && s[k] in s && Fits(s[k], n)
      ensures bestFit ==> forall t :: t in s && Fits(t, n) ==> s[k].size <= t.size
    {
    }

    // Every tag of a class above that of the request fits, so that an instant fit takes the first of its list.
    lemma InstantFits(t: Tag, n: nat)
      requires quantum > 0 && t in listed && ClassOk(t) && listed[t] > HighBit(n / quantum)
      ensures Fits(t, n)
    {
      if t.size < n {
        Multiples.DivMonotone(t.size, n, quantum);
        HighBitMonotone(t.size / quantum, n / quantum);
      }
    }

    // Larger classes hold larger tags, and tags on no list are larger than all that are.
    lemma ClassOrder(a: Tag, b: Tag)
      requires ClassesOk({}) && a in tagSeq && b in tagSeq && !a.used && !b.used
      requires a in listed && (b in listed ==> listed[a] < listed[b])
      ensures a.size <= b.size
    {
      assert ClassOk(a) && ClassOk(b);
      Multiples.QuotientPositive(b.size, quantum);
      HighBitRange(b.size / quantum);
      if b.size < a.size {
        Multiples.DivMonotone(b.size, a.size, quantum);
        HighBitMonotone(b.size / quantum, a.size / quantum);
        assert false;
      }
    }

    // On the lists are exactly the free tags below the size limit, each in the class of its highest bit.
    lemma ListedExactly(t: Tag)
      requires ClassesOk({}) && t in tagSeq
      ensures t in listed <==> !t.used && t.size / quantum < Pow2(cacheBits)
      ensures t in listed ==> Pow2(listed[t]) <= t.size / quantum < Pow2(listed[t] + 1)
    {
      assert ClassOk(t);
      Multiples.QuotientPositive(t.size, quantum);
      var v, h := t.size / quantum, HighBit(t.size / quantum);
      HighBitRange(v);
      if h < cacheBits { Pow2Monotone(h + 1, cacheBits); } else { Pow2Monotone(cacheBits, h); }
    }

    lemma ClassReached(t: Tag, rsize: nat)
      requires ClassesOk({}) && t in tagSeq && t in listed && t.size >= rsize
      ensures HighBit(rsize / quantum) <= listed[t]
    {
      assert ClassOk(t);
      Multiples.DivMonotone(rsize, t.size, quantum);
      HighBitMonotone(rsize / quantum, t.size / quantum);
    }

    // How vmem_alloc chooses a tag: what it finds is the same size as what the plain scan would find. A
    // search takes what the plain scan finds, and an instant fit the first tag of the first list above the
    // class of the request that has any.
    method Find(size: nat, flags: Flags) returns (bt: Tag?, ghost k: nat)
      requires TagsOk() && ListsOk() && ClassesOk({}) && HighBit(size / quantum) >= 0
      ensures bt == null ==> forall t :: t in tagSeq ==> !Fits(t, size)
      ensures bt != null ==> k < |tagSeq| && tagSeq[k] == bt && Fits(bt, size)
      ensures bt != null && flags.bestFit && (flags.search || !flags.instant) ==>
                forall t :: t in tagSeq && Fits(t, size) ==> bt.size <= t.size
      ensures bt != null && flags.search ==> Chosen(tagSeq, k, size, flags.bestFit)
      ensures bt != null && !flags.search && !flags.bestFit && flags.instant ==>
                if exists t :: t in listed && listed[t] > HighBit(size / quantum)
                then && bt in listed && listed[bt] > HighBit(size / quantum) && bt == freeSeqs[listed[bt]][0]
                     && forall t :: t in listed && listed[t] > HighBit(size / quantum) ==> listed[bt] <= listed[t]
                else Chosen(tagSeq, k, size, false)
    {
      hide LinkedFrom, Chosen, HighBit, CacheNum, Members;
      ghost var at;
      if !flags.search {
        bt, at := AllocQuantum(size, flags);
        if bt == null {
          bt, k := AllocSearch(size, flags);
          if bt != null { InTheList(tagSeq, k, size, flags.bestFit); }
          ListedOk();
          if flags.instant { NoneInstant(size); }
        } else {
          ghost var c: nat := listed[bt];
          InTheList(freeSeqs[c], at, size, flags.bestFit);
          k :| 0 <= k < |tagSeq| && tagSeq[k] == bt;
          ListedOk();
          ListOf(c);
          if flags.bestFit && !flags.instant { LeastOfAll(bt, size, flags); }
          if !flags.bestFit && flags.instant { InstantTakes(freeSeqs[c], at, c, size); }
        }
      } else {
        bt, k := AllocSearch(size, flags);
        if bt != null { InTheList(tagSeq, k, size, flags.bestFit); }
      }
    }

    lemma NoneInstant(size: nat)
      requires quantum > 0 && forall t :: t in listed ==> t in tagSeq && ClassOk(t)
      requires forall t :: t in listed && listed[t] >= HighBit(size / quantum) + 1 ==> t.size < size
      ensures forall t :: t in listed ==> listed[t] <= HighBit(size / quantum)
    {
      hide CacheNum, HighBit;
      forall t | t in listed && listed[t] > HighBit(size / quantum) ensures false {
        InstantFits(t, size);
      }
    }

    lemma LeastOfAll(bt: Tag, size: nat, flags: Flags)
      requires ClassesOk({}) && bt in listed && bt in tagSeq && Fits(bt, size) && !flags.instant
      requires forall t :: t in listed && listed[t] == listed[bt] && Fits(t, size) ==> bt.size <= t.size
      requires forall t :: t in listed && FirstClass(size, flags) <= listed[t] < listed[bt] ==> t.size < size
      ensures forall t :: t in tagSeq && Fits(t, size) ==> bt.size <= t.size
    {
      forall t | t in tagSeq && Fits(t, size) ensures bt.size <= t.size {
        if t in listed { ClassReached(t, size); }
        if t !in listed || listed[t] > listed[bt] { ClassOrder(bt, t); }
      }
    }

    // The list of a class holds exactly the tags of that class.
    lemma ListOf(c: nat)
      requires MembersOk() && c < cacheBits
      ensures forall t :: t in freeSeqs[c] <==> t in listed && listed[t] == c
    {
    }

    lemma InstantTakes(s: seq<Tag>, at: nat, c: nat, size: nat)
      requires quantum > 0 && Chosen(s, at, size, false) && c > HighBit(size / quantum)
      requires forall t :: t in listed ==> t in tagSeq && ClassOk(t)
      requires forall t :: t in s ==> t in listed && listed[t] == c
      requires forall t :: t in listed && HighBit(size / quantum) + 1 <= listed[t] < c ==> t.size < size
      ensures at == 0 && forall t :: t in listed && listed[t] > HighBit(size / quantum) ==> c <= listed[t]
    {
      hide CacheNum, HighBit;
      if at > 0 {
        assert s[0] in s;
        InstantFits(s[0], size);
      }
      forall t | t in listed && listed[t] > HighBit(size / quantum) ensures c <= listed[t] {
        InstantFits(t, size);
      }
    }

    lemma ListedOk()
      requires ClassesOk({}) && MembersOk()
      ensures forall t :: t in listed ==> t in tagSeq && ClassOk(t)
    {
      hide ClassOk;
    }

    // ---- freeing ----

    // The tag leaves the hash and counts as free, but is on no list yet.
    method Erase(span: Span, slot: nat, bt: Tag)
      requires ListsOk() && ClassesOk({}) && HashOk(null) && SpansOk()
      requires span in spanSeq && slot < span.hash.Length && span.hash[slot] == bt
      modifies hashes, bt`used
      ensures ListsOk() && ClassesOk({bt}) && HashOk(null) && bt !in listed && !bt.used && bt in tagSeq
      ensures old(bt.used) && bt.span == span.R() && bt.slot == slot
    {
      hide ListsOk;
      assert ClassOk(bt);
      SpansApart(span);
      span.hash[slot] := null;
      bt.used := false;
      HashLoses(bt, span);
    }

    twostate lemma HashLoses(t: Tag, new span: Span)
      requires old(HashOk(null)) && old(spanSeq) == spanSeq && old(hashes) == hashes && old(tagSeq) == tagSeq &&
                !t.used && span in spanSeq
      requires span.R() == t.span && t.slot < span.hash.Length && span.hash[t.slot] == null
      requires forall sp: Span :: sp in spanSeq ==> if sp == span then old(sp.hash[t.slot]) == t else sp.R() != span.R()
      requires forall sp: Span, k :: sp in spanSeq && 0 <= k < sp.hash.Length && !(sp == span && k == t.slot) ==>
                sp.hash[k] == old(sp.hash[k])
      requires forall u: Tag :: u in tagSeq && u != t ==> u.used == old(u.used)
      ensures HashOk(null)
    {
    }

    // The free tag at k melts into a free left neighbour of its span.
    method MeltIntoLeft(bt: Tag, span: Span, ghost k: nat) returns (m: Tag)
      requires TagsOk() && ListsOk() && ClassesOk({bt}) && HashOk(null) && bt !in listed && !bt.used
      requires k < |tagSeq| && tagSeq[k] == bt && bt.span == span.R()
      modifies this`tagSeq, this`freeSeqs, this`listed, freeCache
      modifies tagSeq`flNext, tagSeq`flPrev, tagSeq`next, tagSeq`prev, tagSeq`size
      ensures TagsOk() && ListsOk() && ClassesOk({m}) && HashOk(null) && m !in listed && !m.used
      ensures View() == MeltLeft(old(View()), k)
      ensures if MergesLeft(old(View()), k)
              then 0 < k <= |tagSeq| && tagSeq[k - 1] == m
              else k < |tagSeq| && tagSeq[k] == m
      ensures forall i :: 0 <= i < |tagSeq| ==> tagSeq[i] in old(tagSeq)
    {
      hide ListsOk, HashOk, Linked, ClassesOk, Join, View;
      NeighbourView(k);
      PrevOf(bt, k);
      m := bt;
      if bt.prev != null {
        if !bt.prev.used && bt.prev.addr >= span.addr {
          m := bt.prev;
          Withdraw(m, {bt});
          assert {bt} + {m} == {m, bt};
          RemovedSubset(tagSeq, k);
          AbsorbAt(m, bt, k - 1);
          assert tagSeq[k - 1] == At(tagSeq, k - 1);
        }
      }
    }

    lemma NeighbourView(k: nat)
      requires k < |tagSeq|
      ensures |View()| == |tagSeq| && View()[k] == tagSeq[k].Value()
      ensures k > 0 ==> View()[k - 1] == tagSeq[k - 1].Value()
      ensures k + 1 < |tagSeq| ==> View()[k + 1] == tagSeq[k + 1].Value()
    {
    }

    lemma PrevOf(bt: Tag, k: nat)
      requires TagsOk() && k < |tagSeq| && tagSeq[k] == bt
      ensures bt.prev == (if k > 0 then tagSeq[k - 1] else null)
      ensures bt.next == (if k + 1 < |tagSeq| then tagSeq[k + 1] else null)
      ensures Distinct(tagSeq)
    {
      LinkedFromIsAll(tagSeq, 0);
    }

    // ... and takes over a free right neighbour.
    method MeltInRight(bt: Tag, span: Span, ghost k: nat)
      requires TagsOk() && ListsOk() && ClassesOk({bt}) && HashOk(null) && bt !in listed && !bt.used
      requires k < |tagSeq| && tagSeq[k] == bt && bt.span == span.R()
      modifies this`tagSeq, this`freeSeqs, this`listed, freeCache
      modifies tagSeq`flNext, tagSeq`flPrev, tagSeq`next, tagSeq`prev, tagSeq`size
      ensures TagsOk() && ListsOk() && ClassesOk({bt}) && HashOk(null) && bt !in listed && bt in tagSeq
      ensures View() == MeltRight(old(View()), k)
      ensures forall i :: 0 <= i < |tagSeq| ==> tagSeq[i] in old(tagSeq)
    {
      hide ListsOk, HashOk, Linked, ClassesOk, Join, View;
      NeighbourView(k);
      PrevOf(bt, k);
      if bt.next != null {
        if !bt.next.used && bt.next.addr < span.addr + span.size {
          var tmp := bt.next;
          Withdraw(tmp, {bt});
          assert {bt} + {tmp} == {bt, tmp};
          RemovedSubset(tagSeq, k + 1);
          AbsorbAt(bt, tmp, k);
        }
      }
    }

    // The melting of vmem_free, both ways, and back on a free list.
    method Melt(bt: Tag, span: Span, ghost k: nat, ghost was: seq<Extent>)
      requires TagsOk() && ListsOk() && ClassesOk({bt}) && HashOk(null)
      requires bt !in listed && !bt.used && bt.size >= quantum
      requires quantum > 0 && k < |tagSeq| && tagSeq[k] == bt && bt.span == span.R()
      requires Tiled(was) && k < |was| && was[k].used && View() == was[k := was[k].(used := false)]
      requires Tiled(FreeAt(was, k)) && Quantized(FreeAt(was, k), quantum)
      modifies this`tagSeq, this`freeSeqs, this`listed, freeCache
      modifies tagSeq`flNext, tagSeq`flPrev, tagSeq`next, tagSeq`prev, tagSeq`size
      ensures TagsOk() && ListsOk() && ClassesOk({}) && HashOk(null)
      ensures View() == FreeAt(was, k)
      ensures forall i :: 0 <= i < |tagSeq| ==> tagSeq[i] in old(tagSeq)
    {
      hide ListsOk, HashOk, ClassesOk, Linked, View, Tiled, Quantized;
      hide FreeAt, MeltLeft, MeltRight, MergesLeft, MergesRight, AfterLeft;
      FreeInSteps(was, k);
      ViewAt(k);
      ghost var lo := FreeLow(was, k);
      var m := MeltIntoLeft(bt, span, k);
      ViewAt(lo);
      MeltInRight(m, span, lo);
      BigEnough(m);
      Relist(m);
    }

    lemma ViewAt(k: nat)
      requires k < |tagSeq|
      ensures |View()| == |tagSeq| && View()[k] == tagSeq[k].Value()
    {
    }

    // A free tag goes back on a free list, if it is small enough.
    method Relist(bt: Tag)
      requires ListsOk() && ClassesOk({bt}) && HashOk(null) && bt in tagSeq && bt !in listed && !bt.used &&
                bt.size >= quantum
      modifies this`freeSeqs, this`listed, freeCache, tagSeq`flNext, tagSeq`flPrev
      ensures ListsOk() && ClassesOk({}) && HashOk(null)
    {
      hide ListsOk;
      label L:
      if CacheNum(bt.size) >= 0 {
        AddFreelist(bt);
        assert HashOk(null) by { HashStands@L(); }
      }
    }

    lemma BigEnough(t: Tag)
      requires quantum > 0 && t in tagSeq && Tiled(View()) && Quantized(View(), quantum)
      ensures t.size >= quantum
    {
      var i :| 0 <= i < |tagSeq| && tagSeq[i] == t;
      assert Inside(View()[i]) && OnQuantum(View()[i], quantum);
      SlotOfAddress(View()[i], t.addr, quantum);
    }

    // ---- the operations ----

    ghost predicate Owns()
      reads this
    {
      && this in Repr && freeCache in Repr
      && (forall i :: 0 <= i < |tagSeq| ==> tagSeq[i] in Repr)
      && (forall i :: 0 <= i < |spanSeq| ==> spanSeq[i] in Repr)
      && (forall h :: h in hashes ==> h in Repr)
    }

    ghost predicate Valid()
      reads this, Repr
    {
      Owns() && TagsOk() && TilingOk() && SpansOk() && ListsOk() && ClassesOk({}) && HashOk(null)
    }

    // vmem_free looks a tag up by span and slot: any address in its first quantum names it.
    ghost predicate Names(e: Extent, a: nat) { e.used && e.addr <= a < e.addr + quantum }

    lemma SlotInRange(span: Span, a: nat)
      requires SpansOk() && HashOk(null) && span in spanSeq && span.addr <= a < span.addr + span.size
      ensures Slot(span.R(), a, quantum) < span.hash.Length
    {
      hide HashOk;
      LengthOf(span);
      Multiples.DivMonotone(a - span.addr, span.size - 1, quantum);
      Multiples.LastQuotient(span.size, quantum);
    }

    lemma LengthOf(span: Span)
      requires HashOk(null) && span in spanSeq
      ensures quantum > 0 && span.hash.Length == span.size / quantum
    {
    }

    // What the lookup finds, and that it misses nothing.
    lemma Lookup(a: nat, span: Span?, slot: nat)
      requires SpansOk() && HashOk(null) && TilingOk()
      requires span != null ==> span in spanSeq && span.addr <= a < span.addr + span.size
      requires span != null ==> slot == Slot(span.R(), a, quantum) && slot < span.hash.Length
      requires span == null ==> forall sp :: sp in spanSeq ==> !(sp.addr <= a < sp.addr + sp.size)
      ensures forall i :: 0 <= i < |View()| && Names(View()[i], a) ==> span != null && span.hash[slot] == tagSeq[i]
      ensures span != null && span.hash[slot] != null ==> span.hash[slot] in tagSeq && Names(span.hash[slot].Value(), a)
    {
      hide ListsOk;
      forall i | 0 <= i < |View()| && Names(View()[i], a) ensures span != null && span.hash[slot] == tagSeq[i] {
        NamedIn(i, a, span);
      }
      if span != null && span.hash[slot] != null {
        var t := span.hash[slot];
        var k :| 0 <= k < |tagSeq| && tagSeq[k] == t;
        assert Inside(View()[k]) && OnQuantum(View()[k], quantum);
        SlotOfAddress(View()[k], a, quantum);
      }
    }

    lemma NamedIn(i: nat, a: nat, span: Span?)
      requires SpansOk() && HashOk(null) && TilingOk() && i < |View()| && Names(View()[i], a)
      requires span != null ==> span in spanSeq && span.addr <= a < span.addr + span.size
      requires span == null ==> forall sp :: sp in spanSeq ==> !(sp.addr <= a < sp.addr + sp.size)
      ensures span != null && tagSeq[i].slot == Slot(span.R(), a, quantum) && tagSeq[i].span == span.R()
      ensures tagSeq[i].slot < span.hash.Length && span.hash[tagSeq[i].slot] == tagSeq[i]
    {
      hide HashOk, TilingOk, SpansOk;
      var t := tagSeq[i];
      InViewOf(i);
      var e := View()[i];
      SlotOfAddress(e, a, quantum);
      var sp := SpanFor(i);
      if span != null { SpanUnique(sp, span, a); }
      HashHolds(t, sp);
    }

    lemma InViewOf(i: nat)
      requires TilingOk() && i < |tagSeq|
      ensures Inside(View()[i]) && OnQuantum(View()[i], quantum) && View()[i] == tagSeq[i].Value()
    {
    }

    lemma SpanFor(i: nat) returns (sp: Span)
      requires TilingOk() && SpansOk() && i < |tagSeq|
      ensures sp in spanSeq && sp.R() == tagSeq[i].span
    {
      assert View()[i] in View() && View()[i].span in Spans(View());
      sp :| sp in spanSeq && sp.R() == tagSeq[i].span;
    }

    lemma HashHolds(t: Tag, sp: Span)
      requires HashOk(null) && t in tagSeq && t.used && sp in spanSeq && t.span == sp.R()
      ensures t.slot < sp.hash.Length && sp.hash[t.slot] == t && t.slot == Slot(t.span, t.addr, quantum)
    {
    }

    method Free(a: nat) returns (r: Option<nat>, ghost k: nat)
      requires Valid()
      modifies Repr
      ensures Valid() && fresh(Repr - old(Repr))
      ensures r == None ==> View() == old(View()) && forall i :: 0 <= i < |View()| ==> !Names(View()[i], a)
      ensures r != None ==>
                && r == Some(a) && k < |old(View())| && Names(old(View())[k], a)
                && View() == FreeAt(old(View()), k)
    {
      hide Linked, ListsOk, ClassesOk, HashOk, TilingOk, SpansOk, View, Names, FreeAt;
      r, k := None, 0;
      var found := GetSpan(a);
      if found == null {
        Lookup(a, null, 0);
        return;
      }
      var span: Span := found;
      QuantumPositive();
      var slot := HashSlot(span, a);
      SlotInRange(span, a);
      var bt := span.hash[slot];
      Lookup(a, span, slot);
      FitsInView(0);
      if bt == null { return; }
      k :| 0 <= k < |tagSeq| && tagSeq[k] == bt;
      ViewAt(k);
      FreeTag(bt, span, slot, k);
      r := Some(a);
    }

    lemma QuantumPositive()
      requires TilingOk()
      ensures quantum > 0
    {
    }

    lemma Freeable(bt: Tag, span: Span, slot: nat, k: nat)
      requires TilingOk() && HashOk(null) && span in spanSeq && slot < span.hash.Length && span.hash[slot] == bt
      requires k < |tagSeq| && tagSeq[k] == bt
      ensures bt.used && bt.span == span.R() && bt.size >= quantum > 0 && k < |View()| && View()[k].used
      ensures Tiled(View()) && Tiled(FreeAt(View(), k)) && Quantized(FreeAt(View(), k), quantum)
      ensures Spans(FreeAt(View(), k)) == Spans(View())
    {
      hide Tiled, Chain, Quantized, FreeAt;
      FreeKeeps(View(), k);
      FreeQuantized(View(), k, quantum);
      BigEnough(bt);
    }

    twostate lemma Unused(k: nat)
      requires tagSeq == old(tagSeq) && k < |tagSeq| && !tagSeq[k].used && tagSeq[k].size == old(tagSeq[k].size)
      requires forall i :: 0 <= i < |tagSeq| && i != k ==>
                tagSeq[i].Value() == old(tagSeq[i].Value()) || tagSeq[i] == tagSeq[k]
      requires Distinct(tagSeq)
      ensures View() == old(View())[k := old(View())[k].(used := false)]
    {
    }

    twostate lemma SpansStand()
      requires old(SpansOk()) && spans == old(spans) && spanSeq == old(spanSeq)
      requires forall i :: 0 <= i < |spanSeq| ==> spanSeq[i].next == old(spanSeq[i].next)
      requires Spans(View()) == Spans(old(View()))
      ensures SpansOk()
    {
      hide View, Spans;
    }

    // The part of vmem_free after the lookup.
    method FreeTag(bt: Tag, span: Span, slot: nat, ghost k: nat)
      requires Valid() && span in spanSeq && slot < span.hash.Length && span.hash[slot] == bt
      requires k < |tagSeq| && tagSeq[k] == bt
      modifies Repr
      ensures Valid() && Repr == old(Repr) && spanSeq == old(spanSeq)
      ensures View() == FreeAt(old(View()), k)
    {
      hide Linked, ListsOk, ClassesOk, HashOk, SpansOk, View, Tiled, Quantized, FreeAt;
      ghost var was := View();
      LinkedDistinct(tags, tagSeq);
      Freeable(bt, span, slot, k);
      Erase(span, slot, bt);
      Unused(k);
      Melt(bt, span, k, was);
      SpansStand();
      OwnsFewer();
      hide Owns;
    }

    twostate lemma OwnsFewer()
      requires old(Owns()) && Repr == old(Repr) && spanSeq == old(spanSeq) && hashes == old(hashes)
      requires forall i :: 0 <= i < |tagSeq| ==> tagSeq[i] in old(tagSeq)
      ensures Owns()
    {
    }

    // The chosen tag leaves its free list and is cut; everything but the hash is in order again.
    method CutFrom(bt: Tag, size: nat, ghost k: nat) returns (t: Tag)
      requires TagsOk() && ListsOk() && ClassesOk({}) && HashOk(null)
      requires k < |tagSeq| && tagSeq[k] == bt && Fits(bt, size) && 0 < quantum <= size &&
                (bt.size == size || size + quantum <= bt.size)
      modifies this`tagSeq, this`freeSeqs, this`listed, freeCache
      modifies tagSeq`flNext, tagSeq`flPrev, tagSeq`next, tagSeq`prev, bt`size, bt`used
      ensures TagsOk() && ListsOk() && ClassesOk({}) && HashOk(t) && Unrecorded(t)
      ensures View() == AllocAt(old(View()), k, size)
      ensures t in tagSeq && t.used && t.Value() == Taken(old(bt.Value()), size)
      ensures forall i :: 0 <= i < |tagSeq| ==> tagSeq[i] in old(tagSeq) || tagSeq[i] == t
      ensures t in old(tagSeq) || fresh(t)
    {
      hide Linked, ListsOk, ClassesOk, HashOk, View, AllocAt;
      LinkedDistinct(tags, tagSeq);
      Withdraw(bt, {});
      assert {} + {bt} == {bt};
      t := Take(bt, size, k);
      ViewTaken(size, k, t);
    }

    // With the tag in its slot, all is in order again.
    method Complete(t: Tag)
      requires Owns() && TagsOk() && TilingOk() && SpansOk() && ListsOk() && ClassesOk({}) && HashOk(t)
      requires Unrecorded(t) && t in tagSeq && t.used
      modifies hashes
      ensures Valid() && View() == old(View())
    {
      hide Owns, Linked, ListsOk, ClassesOk, HashOk, SpansOk, View, Tiled, Quantized, Unrecorded;
      CacheApart(t);
      ghost var home := Record(t);
    }

    // vmem_alloc once a fitting tag is found.
    method AllocTag(bt: Tag, size: nat, ghost k: nat) returns (t: Tag)
      requires Valid() && k < |tagSeq| && tagSeq[k] == bt && Fits(bt, size) && size > 0 && size % quantum == 0
      modifies Repr
      ensures Valid() && fresh(Repr - old(Repr)) && spanSeq == old(spanSeq)
      ensures View() == AllocAt(old(View()), k, size)
      ensures t in tagSeq && t.Value() == Taken(old(View())[k], size)
    {
      hide Linked, ListsOk, ClassesOk, HashOk, SpansOk, View, Tiled, Quantized, AllocAt;
      Allocatable(bt, k, size);
      t := CutFrom(bt, size, k);
      Repr := Repr + {t};
      SpansStand();
      OwnsTag(t);
      hide Owns;
      Complete(t);
    }

    twostate lemma OwnsTag(new t: Tag)
      requires old(Owns()) && Repr == old(Repr) + {t} && spanSeq == old(spanSeq) && hashes == old(hashes)
      requires forall i :: 0 <= i < |tagSeq| ==> tagSeq[i] in old(tagSeq) || tagSeq[i] == t
      ensures Owns()
    {
    }

    lemma CacheApart(except: Tag?)
      requires HashOk(except)
      ensures freeCache !in hashes
    {
    }

    lemma Allocatable(bt: Tag, k: nat, size: nat)
      requires TilingOk() && k < |tagSeq| && tagSeq[k] == bt && Fits(bt, size) && size > 0 && size % quantum == 0
      ensures k < |View()| && Fit(View()[k], size) && View()[k] == bt.Value()
      ensures Tiled(AllocAt(View(), k, size)) && Quantized(AllocAt(View(), k, size), quantum)
      ensures Spans(AllocAt(View(), k, size)) == Spans(View())
      ensures quantum <= size && (bt.size == size || size + quantum <= bt.size)
    {
      InViewOf(k);
      hide Tiled, Chain, Quantized, AllocAt;
      AllocKeeps(View(), k, size);
      AllocQuantized(View(), k, size, quantum);
      Multiples.AtLeastOne(size, quantum);
      if bt.size > size {
        Multiples.SumOfMultiples(bt.size, size, quantum);
        Multiples.AtLeastOne(bt.size - size, quantum);
      }
    }

    lemma Rounded(rsize: nat)
      requires quantum > 0 && rsize > 0
      ensures var n := Multiples.RoundUp(rsize, quantum); n > 0 && n % quantum == 0 && HighBit(n / quantum) >= 0
    {
      var n := Multiples.RoundUp(rsize, quantum);
      Multiples.RoundUpIsMultiple(rsize, quantum);
      Multiples.AtLeastOne(n, quantum);
      Multiples.QuotientPositive(n, quantum);
      HighBitRange(n / quantum);
    }

    // The rollback after a failed import from the source.
    method GiveBack(t: Tag, ghost was: seq<Extent>, ghost k: nat, size: nat)
      requires Valid() && Tiled(was) && Quantized(was, quantum) && k < |was| && Fit(was[k], size) && size > 0 &&
                size % quantum == 0
      requires View() == AllocAt(was, k, size) && t.addr == Taken(was[k], size).addr
      modifies Repr
      ensures Valid() && fresh(Repr - old(Repr)) && View() == was
    {
      hide Linked, ListsOk, ClassesOk, HashOk, SpansOk, Tiled, Quantized, AllocAt, FreeAt, View;
      ghost var _, j := Free(t.addr);
      ghost var i := TakenIn(was, k, size);
      assert Names(AllocAt(was, k, size)[i], t.addr);
      UndoAlloc(was, k, size, quantum, j);
    }

    lemma FitsInView(n: nat)
      ensures |View()| == |tagSeq|
      ensures forall i :: 0 <= i < |tagSeq| ==>
                (Fit(View()[i], n) <==> Fits(tagSeq[i], n)) && View()[i].size == tagSeq[i].size
    {
    }

    lemma ChosenInView(k: nat, n: nat, bestFit: bool)
      requires Chosen(tagSeq, k, n, bestFit)
      ensures |View()| == |tagSeq| > k
      ensures forall i :: 0 <= i < k && Fit(View()[i], n) ==> bestFit && View()[k].size < View()[i].size
    {
      FitsInView(n);
      hide Fits, Fit, View;
    }

    method Alloc(rsize: nat, flags: Flags, imported: Option<nat>) returns (r: Option<nat>, ghost k: nat)
      requires Valid()
      modifies Repr
      ensures Valid() && fresh(Repr - old(Repr))
      ensures rsize == 0 ==> r == None
      ensures r == None ==> View() == old(View())
      ensures r == None && rsize > 0 && !(hasSource && imported == None) ==>
                forall i :: 0 <= i < |View()| ==> !Fit(View()[i], Multiples.RoundUp(rsize, quantum))
      ensures r != None ==>
                var n := Multiples.RoundUp(rsize, quantum);
                && !(hasSource && imported == None)
                && k < |old(View())| && n > 0 && Fit(old(View())[k], n)
                && View() == AllocAt(old(View()), k, n) && r == Some(Taken(old(View())[k], n).addr)
                && (flags.bestFit && (flags.search || !flags.instant) ==>
                      forall i :: 0 <= i < |old(View())| && Fit(old(View())[i], n) ==>
                        old(View())[k].size <= old(View())[i].size)
                && (flags.search ==>
                      forall i :: 0 <= i < k && Fit(old(View())[i], n) ==>
                        flags.bestFit && old(View())[k].size < old(View())[i].size)
    {
      hide Linked, ListsOk, ClassesOk, HashOk, SpansOk, Tiled, Quantized, AllocAt, FreeAt, View, Owns;
      hide Fit, Fits, Chosen;
      r, k := None, 0;
      var size := rsize;
      if rsize == 0 { return; }
      if rsize % quantum != 0 { size := size + (quantum - rsize % quantum); }
      Rounded(rsize);
      ghost var was := View();
      FitsInView(size);
      var bt;
      bt, k := Find(size, flags);
      if bt == null {
        forall i | 0 <= i < |was| ensures !Fit(was[i], size) { assert !Fits(tagSeq[i], size); }
        return;
      }
      if flags.search { ChosenInView(k, size, flags.bestFit); }
      var t := AllocTag(bt, size, k);
      if hasSource && imported == None {
        GiveBack(t, was, k, size);
        return;
      }
      r := Some(t.addr);
    }

    // ---- adding a span ----

    method SpanPlace(addr: nat) returns (insert: Span?, ghost k: nat)
      requires SpanLinked(spans, spanSeq) && InOrder(spanSeq, quantum)
      ensures k <= |spanSeq| && insert == SpanAt(spanSeq, k - 1)
      ensures forall i :: 0 <= i < k ==> spanSeq[i].addr < addr
      ensures forall i :: k <= i < |spanSeq| ==> spanSeq[i].addr >= addr
    {
      var span := spans;
      insert, k := null, 0;
      while span != null
        invariant k <= |spanSeq| && span == SpanAt(spanSeq, k) && insert == SpanAt(spanSeq, k - 1)
        invariant forall i :: 0 <= i < k ==> spanSeq[i].addr < addr
        decreases |spanSeq| - k
      {
        if span.addr >= addr { break; }
        insert := span;
        span := span.next;
        k := k + 1;
      }
      assert forall i :: k < i < |spanSeq| ==> Limit(spanSeq[k].R()) <= spanSeq[i].addr;
    }

    method TagPlace(addr: nat) returns (insert: Tag?, ghost k: nat)
      requires TagsOk()
      ensures k == Place(View(), addr) && k <= |tagSeq| && insert == At(tagSeq, k - 1)
    {
      LinkedFromIsAll(tagSeq, 0);
      var bt := tags;
      insert, k := null, 0;
      while bt != null
        invariant k <= |tagSeq| && bt == At(tagSeq, k) && insert == At(tagSeq, k - 1)
        invariant forall i :: 0 <= i < k ==> tagSeq[i].addr < addr
        decreases |tagSeq| - k
      {
        if bt.addr >= addr { break; }
        insert := bt;
        bt := bt.next;
        k := k + 1;
      }
      PlaceIs(View(), addr, k);
    }

    lemma PlaceIs(ts: seq<Extent>, addr: nat, k: nat)
      requires k <= |ts| && (forall i :: 0 <= i < k ==> ts[i].addr < addr) && (k < |ts| ==> ts[k].addr >= addr)
      ensures k == Place(ts, addr)
    {
      var p := Place(ts, addr);
      assert !(p < k) && !(k < p);
    }

    // The new span goes into the span list.
    method AddSpan(span: Span)
      requires SpanLinked(spans, spanSeq) && InOrder(spanSeq, quantum) && span !in spanSeq && span.size > 0 &&
                span.size % quantum == 0
      requires forall i :: 0 <= i < |spanSeq| ==> spanSeq[i].hash != span.hash && Apart(spanSeq[i].R(), span.R())
      modifies this`spans, this`spanSeq, this`hashes, spanSeq`next, span`next
      ensures forall sp :: sp in spanSeq <==> sp in old(spanSeq) || sp == span
      ensures forall i :: 0 <= i < |spanSeq| ==> spanSeq[i] in old(spanSeq) || spanSeq[i] == span
      ensures Ranges(spanSeq) == Ranges(old(spanSeq)) + {span.R()}
      ensures hashes == old(hashes) + {span.hash}
      ensures SpanLinked(spans, spanSeq) && InOrder(spanSeq, quantum)
    {
      hide Ranges, Apart;
      var insert;
      ghost var k;
      insert, k := SpanPlace(span.addr);
      InsertInOrder(spanSeq, k, span, quantum);
      hide InOrder;
      SpanInsertedMembers(spanSeq, k, span);
      LinkSpan(span, insert, k);
    }

    method LinkSpan(span: Span, insert: Span?, ghost k: nat)
      requires SpanLinked(spans, spanSeq) && k <= |spanSeq| && insert == SpanAt(spanSeq, k - 1) && span !in spanSeq
      modifies this`spans, this`spanSeq, this`hashes, spanSeq`next, span`next
      ensures spanSeq == SpanInserted(old(spanSeq), k, span) && hashes == old(hashes) + {span.hash}
      ensures SpanLinked(spans, spanSeq)
    {
      hide SpanLinked;
      spans := InsertSpan(spans, insert, span, spanSeq, k);
      spanSeq := SpanInserted(spanSeq, k, span);
      hashes := hashes + {span.hash};
    }

    // The new tag goes into the tag list: it is free and on no free list yet.
    method AddTag(bt: Tag)
      requires TagsOk() && ListsOk() && ClassesOk({}) && bt !in tagSeq && !bt.used && bt.flNext == null &&
                bt.flPrev == null
      requires bt.Value() == Whole(bt.span)
      modifies this`tags, this`tagSeq, tagSeq`next, tagSeq`prev, bt`next, bt`prev
      ensures TagsOk() && ListsOk() && ClassesOk({bt}) && bt !in listed && bt in tagSeq
      ensures View() == AddAt(old(View()), bt.span)
      ensures forall t :: t in tagSeq <==> t in old(tagSeq) || t == bt
      ensures forall i :: 0 <= i < |tagSeq| ==> tagSeq[i] in old(tagSeq) || tagSeq[i] == bt
    {
      hide ListsOk, Linked, View;
      var insert;
      ghost var k;
      insert, k := TagPlace(bt.addr);
      ListedAreTags();
      InsertedMembers(tagSeq, k, bt);
      tags := InsertTag(tags, insert, bt, tagSeq, k);
      tagSeq := Inserted(tagSeq, k, bt);
      hide Inserted, TagsOk, AddAt;
      ListsStand();
      ViewAdded(bt, k);
      ClassesStand({}, {bt});
    }

    lemma ListedAreTags()
      requires ListsOk()
      ensures forall t :: t in listed ==> t in tagSeq
    {
    }

    twostate lemma ViewAdded(new bt: Tag, k: nat)
      requires k <= old(|tagSeq|) && k == Place(old(View()), bt.addr) && tagSeq == Inserted(old(tagSeq), k, bt)
      requires bt.Value() == Whole(bt.span)
      requires forall i :: 0 <= i < old(|tagSeq|) ==> old(tagSeq[i].Value()) == old(tagSeq)[i].Value()
      ensures View() == AddAt(old(View()), bt.span)
    {
      var v := old(View());
      forall i | 0 <= i < |tagSeq| ensures View()[i] == Spliced(v, k, k, [Whole(bt.span)], i) {
        TagAdded(bt, k, i);
      }
      SplicedAll(v, k, k, [Whole(bt.span)], View());
    }

    twostate lemma TagAdded(new bt: Tag, k: nat, new i: nat)
      requires k <= old(|tagSeq|) && tagSeq == Inserted(old(tagSeq), k, bt) && i < |tagSeq|
      requires bt.Value() == Whole(bt.span)
      requires forall i :: 0 <= i < old(|tagSeq|) ==> old(tagSeq[i].Value()) == old(tagSeq)[i].Value()
      ensures View()[i] == Spliced(old(View()), k, k, [Whole(bt.span)], i)
    {
      assert tagSeq[i] == At(tagSeq, i);
    }

    twostate lemma HashGrows(new span: Span, new bt: Tag)
      requires old(HashOk(null)) && hashes == old(hashes) + {span.hash} && span.hash != freeCache
      requires forall sp: Span :: sp in spanSeq <==> sp in old(spanSeq) || sp == span
      requires forall t: Tag :: t in tagSeq <==> t in old(tagSeq) || t == bt
      requires forall sp: Span, k :: sp in old(spanSeq) && 0 <= k < sp.hash.Length ==> sp.hash[k] == old(sp.hash[k])
      requires span.hash.Length == span.size / quantum && forall k :: 0 <= k < span.hash.Length ==> span.hash[k] == null
      requires forall t: Tag :: t in old(tagSeq) ==> t.used == old(t.used) && t.span != span.R()
      requires !bt.used && bt.span.addr <= bt.addr && bt.slot == Slot(bt.span, bt.addr, quantum)
      ensures HashOk(null)
    {
    }

    method Add(addr: nat, size: nat)
      requires Valid() && size > 0 && size % quantum == 0
      requires forall i :: 0 <= i < |spanSeq| ==> Apart(spanSeq[i].R(), Range(addr, size))
      modifies Repr
      ensures Valid() && fresh(Repr - old(Repr))
      ensures View() == AddAt(old(View()), Range(addr, size))
    {
      hide Linked, ListsOk, ClassesOk, HashOk, TilingOk, SpansOk, View, AddAt, Apart;
      QuantumPositive();
      var span := new Span(addr, size, size / quantum);
      var bt := new Tag(addr, size, Range(addr, size), quantum);
      ListedAreTags();
      AddBoth(span, bt);
      Repr := Repr + {span, bt, span.hash};
      OwnsBoth(span, bt);
      hide Owns;
    }

    twostate lemma OwnsBoth(new span: Span, new bt: Tag)
      requires old(Owns()) && Repr == old(Repr) + {span, bt, span.hash} && hashes == old(hashes) + {span.hash}
      requires forall i :: 0 <= i < |spanSeq| ==> spanSeq[i] in old(spanSeq) || spanSeq[i] == span
      requires forall i :: 0 <= i < |tagSeq| ==> tagSeq[i] in old(tagSeq) || tagSeq[i] == bt
      ensures Owns()
    {
    }

    method AddBoth(span: Span, bt: Tag)
      requires TagsOk() && TilingOk() && SpansOk() && ListsOk() && ClassesOk({}) && HashOk(null)
      requires span !in spanSeq && span.hash != freeCache && span.size > 0 && span.size % quantum == 0
      requires forall i :: 0 <= i < |spanSeq| ==> spanSeq[i].hash != span.hash && Apart(spanSeq[i].R(), span.R())
      requires span.hash.Length == span.size / quantum && forall k :: 0 <= k < span.hash.Length ==> span.hash[k] == null
      requires bt !in tagSeq && !bt.used && bt.flNext == null && bt.flPrev == null && bt.span == span.R() &&
                bt.Value() == Whole(span.R())
      requires bt.slot == Slot(bt.span, bt.addr, quantum)
      modifies this`spans, this`spanSeq, this`hashes, spanSeq`next, span`next
      modifies this`tags, this`tagSeq, this`freeSeqs, this`listed, freeCache
      modifies tagSeq`next, tagSeq`prev, tagSeq`flNext, tagSeq`flPrev, bt`next, bt`prev, bt`flNext, bt`flPrev
      ensures TagsOk() && TilingOk() && SpansOk() && ListsOk() && ClassesOk({}) && HashOk(null)
      ensures View() == AddAt(old(View()), bt.span) && hashes == old(hashes) + {span.hash}
      ensures forall i :: 0 <= i < |spanSeq| ==> spanSeq[i] in old(spanSeq) || spanSeq[i] == span
      ensures forall i :: 0 <= i < |tagSeq| ==> tagSeq[i] in old(tagSeq) || tagSeq[i] == bt
    {
      hide Linked, ListsOk, ClassesOk, HashOk, View, AddAt, Tiled, Quantized, Spans, InOrder, SpanLinked, Ranges;
      hide Apart, Slot, CacheNum;
      Addable(bt.span);
      Multiples.AtLeastOne(bt.size, quantum);
      AddSpan(span);
      AddTag(bt);
      HashGrows(span, bt);
      Relist(bt);
    }

    lemma Addable(r: Range)
      requires TilingOk() && SpansOk() && r.size > 0 && r.size % quantum == 0
      requires forall i :: 0 <= i < |spanSeq| ==> Apart(spanSeq[i].R(), r)
      ensures Tiled(AddAt(View(), r)) && Quantized(AddAt(View(), r), quantum)
      ensures Spans(AddAt(View(), r)) == Spans(View()) + {r} && r !in Spans(View())
      ensures forall i :: 0 <= i < |tagSeq| ==> tagSeq[i].span != r
    {
      hide Tiled, Quantized, AddAt;
      forall s | s in Spans(View()) ensures Apart(s, r) {
        var sp :| sp in spanSeq && sp.R() == s;
      }
      AddKeeps(View(), r);
      AddQuantized(View(), r, quantum);
      forall i | 0 <= i < |tagSeq| ensures tagSeq[i].span != r {
        assert View()[i] in View() && View()[i].span in Spans(View());
      }
    }
  }
}
