// The forest of threads of a process: new_thread and delete_thread of kernel/processes/threads.c, the
// thread-deleting loop of kernel/gc.c; and the tree of processes of kernel/processes/process.c.
module Forest {
  import opened Family
  import opened Sequences

  function Without(s: seq<Node>, n: Node): (r: seq<Node>) {
    if s == [] then [] else if s[0] == n then s[1..] else [s[0]] + Without(s[1..], n)
  }

  lemma {:induction false} WithoutDrops(s: seq<Node>, i: nat)
    requires i < |s| && Distinct(s)
    ensures Without(s, s[i]) == Drop(s, i)
  {
    if i > 0 {
      assert s[0] != s[i];
      assert s[1..][i - 1] == s[i];
      WithoutDrops(s[1..], i - 1);
      assert Drop(s, i) == [s[0]] + Drop(s[1..], i - 1);
    }
  }

  function InsertAfter(s: seq<Node>, bro: Node, n: Node): (r: seq<Node>) {
    if s == [] then [] else if s[0] == bro then [bro, n] + s[1..] else [s[0]] + InsertAfter(s[1..], bro, n)
  }

  lemma {:induction false} InsertAfterInserts(s: seq<Node>, i: nat, n: Node)
    requires i < |s| && forall j :: 0 <= j < i ==> s[j] != s[i]
    ensures InsertAfter(s, s[i], n) == s[..i + 1] + [n] + s[i + 1..]
  {
    if i > 0 {
      var t := s[1..];
      assert t[i - 1] == s[i];
      InsertAfterInserts(t, i - 1, n);
      assert t[..i] == s[1..i + 1] && t[i..] == s[i + 1..];
      assert s[..i + 1] == [s[0]] + s[1..i + 1];
    } else {
      assert s[..1] == [s[0]];
    }
  }

  lemma InsertMembers(s: seq<Node>, i: nat, n: Node)
    requires i <= |s| && Distinct(s) && n !in s
    ensures Distinct(Insert(s, i, n))
    ensures forall m :: m in Insert(s, i, n) <==> m in s || m == n
  {
    var t := Insert(s, i, n);
    hide Insert;
    forall j, k | 0 <= j < k < |t| ensures t[j] != t[k] {
      InsertAt(s, i, n, j);
      InsertAt(s, i, n, k);
    }
    forall m | m in t ensures m in s || m == n {
      var k :| 0 <= k < |t| && t[k] == m;
      InsertAt(s, i, n, k);
    }
    forall m | m in s ensures m in t {
      var k :| 0 <= k < |s| && s[k] == m;
      InsertAt(s, i, n, if k < i then k else k + 1);
    }
    InsertAt(s, i, n, i);
  }

  lemma InsertAt(s: seq<Node>, i: nat, n: Node, k: nat)
    requires i <= |s| && k <= |s|
    ensures Insert(s, i, n)[k] == if k < i then s[k] else if k == i then n else s[k - 1]
  {
  }

  lemma {:induction false} KeepsRoots(s: seq<Node>, bro: Node, n: Node)
    requires bro in s
    ensures bro in InsertAfter(s, bro, n)
  {
    if s[0] != bro {
      KeepsRoots(s[1..], bro, n);
    }
  }

  lemma WithoutFirst(s: seq<Node>)
    requires s != []
    ensures Without(s, s[0]) == s[1..]
  {
  }

  // s with r in the place of n.
  function Replace(s: seq<Node>, n: Node, r: seq<Node>): (t: seq<Node>) {
    if s == [] then [] else if s[0] == n then r + s[1..] else [s[0]] + Replace(s[1..], n, r)
  }

  lemma {:induction false} ReplaceIs(s: seq<Node>, i: nat, r: seq<Node>)
    requires i < |s| && forall j :: 0 <= j < i ==> s[j] != s[i]
    ensures Replace(s, s[i], r) == s[..i] + r + s[i + 1..]
  {
    if i > 0 {
      var t := s[1..];
      assert t[i - 1] == s[i];
      ReplaceIs(t, i - 1, r);
      assert t[..i - 1] == s[1..i] && t[i..] == s[i + 1..];
      assert s[..i] == [s[0]] + s[1..i];
    }
  }

  lemma {:induction false} WithoutLater(s: seq<Node>, t: seq<Node>, n: Node)
    requires n !in s
    ensures Without(s + t, n) == s + Without(t, n)
  {
    if s == [] {
      assert s + t == t;
    } else {
      assert (s + t)[1..] == s[1..] + t;
      WithoutLater(s[1..], t, n);
    }
  }

  // The chains after tr is deleted below p: its children, last one first, come in front of the children
  // of p, or among the roots in its own place.
  function Inherited(chains: map<Node?, seq<Node>>, p: Node?, tr: Node): (r: map<Node?, seq<Node>>)
    requires p in chains && tr in chains
  {
    var kids := Reversed(chains[tr]);
    (chains - {tr})[p := if p == null then Replace(chains[p], tr, kids) else kids + Without(chains[p], tr)]
  }

  ghost predicate InOneOf(chains: map<Node?, seq<Node>>, ps: set<Node?>, n: Node) {
    exists q :: q in ps && q in chains && n in chains[q]
  }

  lemma InOne(chains: map<Node?, seq<Node>>, p: Node?)
    requires p in chains
    ensures forall n :: InOneOf(chains, {p}, n) <==> n in chains[p]
  {
  }

  ghost predicate Shaped(nodes: set<Node>, chains: map<Node?, seq<Node>>, loose: set<Node>) {
    && chains.Keys == nodes + {null}
    && loose <= nodes
    && (forall q, n {:trigger n in chains[q]} :: q in chains && n in chains[q] ==> n in nodes && n !in loose)
  }

  lemma ShapedDrop(nodes: set<Node>, chains: map<Node?, seq<Node>>, loose: set<Node>, p: Node?, i: nat)
    requires Shaped(nodes, chains, loose) && p in chains && i < |chains[p]| && Distinct(chains[p])
    requires forall q :: q in chains && q != p ==> chains[p][i] !in chains[q]
    ensures Shaped(nodes, chains[p := Drop(chains[p], i)], loose + {chains[p][i]})
  {
    DropMembers(chains[p], i);
    DropDistinct(chains[p], i);
    var chains' := chains[p := Drop(chains[p], i)];
    forall q, n | q in chains' && n in chains'[q] ensures n in nodes && n !in loose + {chains[p][i]} {
      assert n in chains[q];
    }
    assert chains[p][i] in chains[p];
  }

  lemma ShapedInsert(nodes: set<Node>, chains: map<Node?, seq<Node>>, loose: set<Node>, p: Node?, i: nat, n: Node)
    requires Shaped(nodes, chains, loose) && p in chains && i <= |chains[p]| && Distinct(chains[p]) && n in loose
    ensures n !in chains[p] && Shaped(nodes, chains[p := Insert(chains[p], i, n)], loose - {n})
  {
    if n in chains[p] { assert false; }
    InsertMembers(chains[p], i, n);
    var chains' := chains[p := Insert(chains[p], i, n)];
    forall q, m | q in chains' && m in chains'[q] ensures m in nodes && m !in loose - {n} {
      assert m in chains[q] || m == n;
    }
  }

  lemma InTwo(chains: map<Node?, seq<Node>>, p: Node?, q: Node?)
    requires p in chains && q in chains
    ensures forall n :: InOneOf(chains, {p, q}, n) <==> n in chains[p] || n in chains[q]
  {
    assert p in {p, q} && q in {p, q};
  }

  lemma MergedMembers(s: seq<Node>, kids: seq<Node>)
    requires Distinct(s) && Distinct(kids) && forall n :: n in s ==> n !in kids
    ensures Distinct(Reversed(kids) + s)
    ensures forall n :: n in Reversed(kids) + s <==> n in s || n in kids
  {
    var r := Reversed(kids);
    assert forall i :: 0 <= i < |r| ==> r[i] == kids[|kids| - 1 - i];
    forall n | n in kids ensures n in r {
      var i :| 0 <= i < |kids| && kids[i] == n;
      assert r[|kids| - 1 - i] == n;
    }
    DistinctJoin(r, s);
  }

  lemma ShapedMerge(nodes: set<Node>, chains: map<Node?, seq<Node>>, loose: set<Node>, p: Node, q: Node)
    requires Shaped(nodes, chains, loose) && p in nodes && q in nodes
    requires forall n :: n in Reversed(chains[q]) + chains[p] <==> n in chains[p] || n in chains[q]
    ensures Shaped(nodes, chains[p := Reversed(chains[q]) + chains[p]][q := []], loose)
  {
    hide Reversed;
  }

  lemma ShapedInclude(nodes: set<Node>, chains: map<Node?, seq<Node>>, loose: set<Node>, n: Node)
    requires Shaped(nodes, chains, loose) && n !in nodes
    ensures Shaped(nodes + {n}, chains[n := []], loose + {n})
    ensures forall q :: q in chains ==> q != n && forall m :: m in chains[q] ==> m in nodes
  {
  }

  lemma ShapedRoot(nodes: set<Node>, chains: map<Node?, seq<Node>>, loose: set<Node>, n: Node)
    requires Shaped(nodes, chains, loose) && n in loose && null in chains && chains[null] == []
    ensures Shaped(nodes, chains[null := [n]], loose - {n}) && n in nodes
  {
  }

  // The chains are the children of every node, in order, and under null the roots. A loose node is in
  // no chain: it has just been made, or taken out, and keeps its children.
  class Tree {
    var head: Node?        // proc->threads, or l_rootProcess
    var count: int         // proc->thread_count
    ghost var nodes: set<Node>
    ghost var chains: map<Node?, seq<Node>>
    ghost var loose: set<Node>

    // A process has no threads at first, and there is no process at first.
    constructor ()
      ensures Valid() && Headed() && head == null && loose == {} && nodes == {} && chains == map[null := []]
    {
      head, count, nodes, chains, loose := null, 0, {}, map[null := []], {};
    }

    ghost predicate Closed()
      reads this`nodes, this`chains, this`loose
    {
      Shaped(nodes, chains, loose)
    }

    ghost predicate ChainOk(q: Node?)
      requires Closed() && q in chains
      reads this`nodes, this`chains, this`loose, nodes
    {
      && (forall n :: n in chains[q] ==> n in nodes)
      && Distinct(chains[q]) && Linked(q, chains[q], NO_HOLE)
      && (q != null ==> q.child == At(chains[q], 0))
    }

    ghost predicate Placed(n: Node)
      reads this`chains, this`loose, n`parent, n`next, n`prev
    {
      && (n in loose ==> n.parent == null && n.next == null && n.prev == null)
      && (n !in loose ==> n.parent in chains && n in chains[n.parent])
      && (n.parent != null ==> n.parent.depth < n.depth)
    }

    ghost predicate Valid()
      reads this`nodes, this`chains, this`loose, nodes
    {
      && Closed()
      && (forall q :: q in chains ==> ChainOk(q))
      && (forall n :: n in nodes ==> Placed(n))
    }

    // proc->threads, or l_rootProcess, is the first root; the threads of a process are counted.
    ghost predicate Headed()
      requires null in chains
      reads this
    {
      HeadOk() && count == |nodes|
    }

    ghost predicate HeadOk()
      requires null in chains
      reads this
    {
      head == At(chains[null], 0)
    }

    lemma OneParent(q: Node?, n: Node)
      requires Closed() && q in chains && ChainOk(q) && n in chains[q]
      ensures n.parent == q
    {
      var i :| 0 <= i < |chains[q]| && chains[q][i] == n;
      assert Link(q, chains[q], i, NO_HOLE);
    }

    lemma ChainMembers(q: Node?)
      requires Valid() && q in chains
      ensures forall n :: n in chains[q] ==>
                n in nodes && n !in loose && n.parent == q && n != q && (q != null ==> q.depth < n.depth)
    {
      assert ChainOk(q);
      forall n | n in chains[q]
        ensures n in nodes && n !in loose && n.parent == q && n != q && (q != null ==> q.depth < n.depth)
      {
        OneParent(q, n);
        assert Placed(n);
      }
    }

    // What a change inside the chains below ps leaves alone.
    twostate predicate Elsewhere(new ps: set<Node?>, new fam: Node?)
      requires nodes == old(nodes)
      reads this, nodes
    {
      && (forall n :: n in nodes && !InOneOf(old(chains), ps, n) && n != fam ==>
            n.parent == old(n.parent) && n.next == old(n.next) && n.prev == old(n.prev))
      && (forall n :: n in nodes && n !in ps ==> n.child == old(n.child))
      && (forall q :: q in old(chains) && q !in ps ==> q in chains && chains[q] == old(chains[q]))
    }

    twostate lemma NotBoth(new p: Node?, new q: Node?, new n: Node)
      requires old(Valid()) && p in old(chains) && q in old(chains) && p != q && n in old(chains)[q]
      ensures n !in old(chains)[p]
    {
      var s, t := old(chains)[p], old(chains)[q];
      assert old(ChainOk(p)) && old(ChainOk(q));
      forall i, j | 0 <= i < |s| && 0 <= j < |t| ensures s[i] != t[j] {
        assert old(Link(p, s, i, NO_HOLE)) && old(Link(q, t, j, NO_HOLE));
      }
    }

    twostate lemma OthersStand(new ps: set<Node?>, new fam: Node?)
      requires old(Valid()) && nodes == old(nodes) && Closed() && ps <= old(chains).Keys
      requires fam != null ==> fam in nodes
      requires Elsewhere(ps, fam) && (fam != null ==> fam in old(loose) || InOneOf(old(chains), ps, fam))
      ensures forall q :: q in old(chains) && q !in ps ==> ChainOk(q)
    {
      forall q | q in old(chains) && q !in ps ensures ChainOk(q) {
        assert old(ChainOk(q));
        forall n | n in chains[q]
          ensures n.parent == old(n.parent) && n.next == old(n.next) && n.prev == old(n.prev)
        {
          forall p | p in ps ensures n !in old(chains)[p] { NotBoth(p, q, n); }
        }
      }
    }

    // Everyone but fam is still in the chain of the parent.
    twostate lemma PlacesStand(new ps: set<Node?>, new fam: Node?)
      requires old(Valid()) && nodes == old(nodes) && Closed() && ps <= old(chains).Keys
      requires fam != null ==> fam in nodes
      requires Elsewhere(ps, fam)
      requires forall n :: n in nodes && n != fam && InOneOf(old(chains), ps, n) ==>
                 n !in loose && n.parent in chains && n in chains[n.parent]
                 && (n.parent != null ==> n.parent.depth < n.depth)
      requires forall n :: n in nodes && n != fam ==> (n in loose <==> n in old(loose))
      ensures forall n :: n in nodes && n != fam ==> Placed(n)
    {
      forall n | n in nodes && n != fam && !InOneOf(old(chains), ps, n) ensures Placed(n) {
        assert old(Placed(n));
      }
    }

    // The one chain that has changed keeps its members, but for fam.
    lemma StillPlaced(p: Node?, was: seq<Node>, fam: Node)
      requires Closed() && p in chains && ChainOk(p)
      requires forall n :: n in was && n != fam ==> n in chains[p] && (p != null ==> p.depth < n.depth)
      ensures forall n :: n in was && n != fam ==>
                n !in loose && n.parent in chains && n in chains[n.parent]
                && (n.parent != null ==> n.parent.depth < n.depth)
    {
      forall n | n in was && n != fam ensures n.parent == p { OneParent(p, n); }
    }

    twostate lemma Rebuilt(new ps: set<Node?>, new fam: Node?)
      requires old(Valid()) && nodes == old(nodes) && Closed() && ps <= old(chains).Keys
      requires fam != null ==> fam in nodes
      requires Elsewhere(ps, fam) && (fam != null ==> fam in old(loose) || InOneOf(old(chains), ps, fam))
      requires forall q :: q in ps ==> ChainOk(q)
      requires forall n :: n in nodes && n != fam && InOneOf(old(chains), ps, n) ==>
                 n !in loose && n.parent in chains && n in chains[n.parent]
                 && (n.parent != null ==> n.parent.depth < n.depth)
      requires forall n :: n in nodes && n != fam ==> (n in loose <==> n in old(loose))
      requires fam != null ==> Placed(fam)
      ensures Valid()
    {
      OthersStand(ps, fam);
      PlacesStand(ps, fam);
    }

    // What a change to the links of the chain s below p, and of fam, leaves alone.
    twostate predicate Around(s: seq<Node>, new p: Node?, new fam: Node)
      requires nodes == old(nodes)
      reads this`nodes, nodes
    {
      && (forall n :: n in nodes && n !in s && n != fam ==>
            n.parent == old(n.parent) && n.next == old(n.next) && n.prev == old(n.prev))
      && (forall n :: n in nodes && n != p ==> n.child == old(n.child))
    }

    twostate lemma AroundIsElsewhere(s: seq<Node>, new p: Node?, new fam: Node)
      requires nodes == old(nodes) && Around(s, p, fam) && p in old(chains) && old(chains)[p] == s
      requires p in chains && chains == old(chains)[p := chains[p]]
      ensures Elsewhere({p}, fam)
    {
      InOne(old(chains), p);
    }

    // family_remove, still without the view.
    method Cut(fam: Node, ghost s: seq<Node>, ghost i: nat)
      requires i < |s| && s[i] == fam && Linked(fam.parent, s, NO_HOLE) && Distinct(s)
      requires fam.parent != null ==> fam.parent.child == At(s, 0) && fam.parent !in s && fam.parent in nodes
      requires forall n :: n in s ==> n in nodes
      modifies nodes
      ensures Linked(old(fam.parent), Drop(s, i), NO_HOLE)
      ensures fam.parent == null && fam.prev == null && fam.next == null
      ensures old(fam.parent) != null ==> old(fam.parent).child == At(Drop(s, i), 0)
      ensures Around(s, old(fam.parent), fam)
    {
      Unlink(fam, s, i);
    }

    // Everything holds again after a change to one chain that keeps its members, but for fam.
    twostate lemma Reseated(new p: Node?, new fam: Node)
      requires old(Valid()) && nodes == old(nodes) && Closed() && fam in nodes
      requires p in old(chains) && p in chains && chains == old(chains)[p := chains[p]]
      requires fam in old(loose) || fam in old(chains)[p]
      requires loose == old(loose) + {fam} || loose == old(loose) - {fam}
      requires Around(old(chains)[p], p, fam)
      requires ChainOk(p) && Placed(fam)
      requires forall n :: n in old(chains)[p] && n != fam ==> n in chains[p]
      ensures Valid()
    {
      hide Valid, Around, Elsewhere, InOneOf;
      var s := old(chains)[p];
      InOne(old(chains), p);
      AroundIsElsewhere(s, p, fam);
      forall n | n in s && n != fam ensures p != null ==> p.depth < n.depth { WasBelow(p, n); }
      StillPlaced(p, s, fam);
      hide Placed, ChainOk;
      Rebuilt({p}, fam);
    }

    twostate lemma WasBelow(new p: Node?, new n: Node)
      requires old(Valid()) && p in old(chains) && n in old(chains)[p]
      ensures p != null ==> p.depth < n.depth
    {
      var i :| 0 <= i < |old(chains)[p]| && old(chains)[p][i] == n;
      assert old(ChainOk(p)) && old(Link(p, chains[p], i, NO_HOLE)) && old(Placed(n));
    }

    twostate lemma Removed(new p: Node?, s: seq<Node>, new i: nat)
      requires old(Valid()) && nodes == old(nodes) && i < |s| && p in old(chains) && s == old(chains)[p]
      requires chains == old(chains)[p := Drop(s, i)] && loose == old(loose) + {s[i]}
      requires Linked(p, Drop(s, i), NO_HOLE) && (p != null ==> p.child == At(Drop(s, i), 0))
      requires s[i].parent == null && s[i].prev == null && s[i].next == null && s[i] in nodes
      requires Around(s, p, s[i])
      ensures Valid() && chains == old(chains)[p := Without(s, s[i])]
    {
      assert old(ChainOk(p)) && Distinct(s) && Shaped(old(nodes), old(chains), old(loose));
      hide Valid, Shaped, Distinct, Linked, Drop, Without, At, Around;
      WithoutDrops(s, i);
      DropMembers(s, i);
      forall q | q in old(chains) && q != p ensures s[i] !in old(chains)[q] {
        NotBoth(q, p, s[i]);
      }
      ShapedDrop(old(nodes), old(chains), old(loose), p, i);
      Freed(s[i]);
      ChainIs(p, Drop(s, i));
      hide Placed, ChainOk;
      Reseated(p, s[i]);
    }

    // Where a node is, and what that says about its chain.
    lemma Place(n: Node) returns (i: nat)
      requires Valid() && n in nodes && n !in loose
      ensures n.parent in chains && i < |chains[n.parent]| && chains[n.parent][i] == n
      ensures Distinct(chains[n.parent]) && Linked(n.parent, chains[n.parent], NO_HOLE)
      ensures n.parent != null ==>
                && n.parent in nodes && n.parent !in chains[n.parent]
                && n.parent.child == At(chains[n.parent], 0)
      ensures forall m :: m in chains[n.parent] ==> m in nodes && m !in loose
    {
      var p := n.parent;
      assert Placed(n) && ChainOk(p);
      ChainMembers(p);
      i :| 0 <= i < |chains[p]| && chains[p][i] == n;
    }

    lemma IsLoose(n: Node)
      requires Valid() && n in loose
      ensures n in nodes && n.parent == null && n.prev == null && n.next == null
    {
      assert Placed(n);
    }

    lemma AfterIs(s: seq<Node>, i: nat, n: Node)
      requires Distinct(s) && i < |s|
      ensures InsertAfter(s, s[i], n) == Insert(s, i + 1, n)
    {
      InsertAfterInserts(s, i, n);
    }

    // family_remove
    method Remove(fam: Node)
      requires Valid() && fam in nodes && fam !in loose
      modifies this`chains, this`loose, nodes
      ensures Valid() && loose == old(loose) + {fam}
      ensures chains == old(chains)[old(fam.parent) := Without(old(chains[fam.parent]), fam)]
    {
      hide Valid, Shaped, Distinct, Linked, Drop, Without, At, Around, Placed;
      ghost var i := Place(fam);
      ghost var p, s := fam.parent, chains[fam.parent];
      Cut(fam, s, i);
      chains := chains[p := Drop(s, i)];
      loose := loose + {fam};
      Removed(p, s, i);
    }

    twostate lemma Added(new p: Node?, s: seq<Node>, new i: nat, new fam: Node)
      requires old(Valid()) && nodes == old(nodes) && i <= |s| && p in old(chains) && s == old(chains)[p]
      requires fam in old(loose) && fam !in s
      requires chains == old(chains)[p := Insert(s, i, fam)] && loose == old(loose) - {fam}
      requires Linked(p, Insert(s, i, fam), NO_HOLE) && (p != null ==> p.child == At(Insert(s, i, fam), 0))
      requires fam.parent == p && fam in nodes && (p != null ==> p.depth < fam.depth)
      requires Around(s, p, fam)
      ensures Valid()
    {
      assert old(ChainOk(p)) && Distinct(s) && Shaped(old(nodes), old(chains), old(loose));
      hide Valid, Shaped, Distinct, Linked, Insert, At, Around;
      InsertMembers(s, i, fam);
      ShapedInsert(old(nodes), old(chains), old(loose), p, i, fam);
      ChainIs(p, Insert(s, i, fam));
      assert Placed(fam);
      hide Placed, ChainOk;
      Reseated(p, fam);
    }

    // Family.AddSibling and Family.AddChild, still without the view.
    method PutAfter(bro: Node, fam: Node, ghost s: seq<Node>, ghost i: nat)
      requires i < |s| && s[i] == bro && Linked(bro.parent, s, NO_HOLE) && Distinct(s) && fam !in s
      requires fam.parent == null && fam.prev == null && fam.next == null && fam in nodes
      requires bro.parent != null ==>
                 bro.parent.child == At(s, 0) && bro.parent !in s && bro.parent != fam && bro.parent in nodes
      requires forall n :: n in s ==> n in nodes
      modifies nodes
      ensures old(bro.parent) != null ==> old(bro.parent).child == At(Insert(s, i + 1, fam), 0)
      ensures Linked(old(bro.parent), Insert(s, i + 1, fam), NO_HOLE) && fam.parent == old(bro.parent)
      ensures Around(s, old(bro.parent), fam)
    {
      Family.AddSibling(bro, fam, s, i);
    }

    method PutFirst(parent: Node, fam: Node, ghost s: seq<Node>)
      requires parent.child == At(s, 0) && Linked(parent, s, NO_HOLE) && Distinct(s) && fam !in s
      requires parent !in s && parent != fam
      requires fam.parent == null && fam.prev == null && fam.next == null && fam in nodes && parent in nodes
      requires forall n :: n in s ==> n in nodes
      modifies nodes
      ensures Linked(parent, Insert(s, 0, fam), NO_HOLE) && parent.child == fam && fam.parent == parent
      ensures Around(s, parent, fam)
    {
      Family.AddChild(parent, fam, s);
    }

    // family_add_sibling
    method AddSibling(bro: Node, fam: Node)
      requires Valid() && bro in nodes && bro !in loose && fam in loose
      requires bro.parent != null ==> bro.parent.depth < fam.depth
      modifies this`chains, this`loose, nodes
      ensures Valid() && loose == old(loose) - {fam}
      ensures chains == old(chains)[old(bro.parent) := InsertAfter(old(chains[bro.parent]), bro, fam)]
    {
      hide Valid, Shaped, Distinct, Linked, At, Insert, InsertAfter, Around, Placed;
      ghost var i := Place(bro);
      IsLoose(fam);
      ghost var p, s := bro.parent, chains[bro.parent];
      AfterIs(s, i, fam);
      PutAfter(bro, fam, s, i);
      chains := chains[p := Insert(s, i + 1, fam)];
      loose := loose - {fam};
      Added(p, s, i + 1, fam);
    }

    // family_add_child
    method AddChild(parent: Node, fam: Node)
      requires Valid() && parent in nodes && fam in loose && parent.depth < fam.depth
      modifies this`chains, this`loose, nodes
      ensures Valid() && loose == old(loose) - {fam}
      ensures chains == old(chains)[parent := [fam] + old(chains[parent])]
    {
      ghost var s := chains[parent];
      assert ChainOk(parent) && Placed(fam);
      ChainMembers(parent);
      assert Insert(s, 0, fam) == [fam] + s;
      hide Valid, Shaped, Distinct, Linked, Insert, Around, Placed;
      PutFirst(parent, fam, s);
      chains := chains[parent := Insert(s, 0, fam)];
      loose := loose - {fam};
      Added(parent, s, 0, fam);
    }

    twostate lemma Merged(new step: Node, new dead: Node)
      requires old(Valid()) && nodes == old(nodes) && loose == old(loose)
      requires step in nodes && dead in nodes && step != dead
      requires var s, kids := old(chains)[step], old(chains)[dead];
               && chains == old(chains)[step := Reversed(kids) + s][dead := []]
               && (forall n :: n in kids ==> step.depth < n.depth)
               && Linked(step, Reversed(kids) + s, NO_HOLE) && step.child == At(Reversed(kids) + s, 0)
               && dead.child == null
      requires Elsewhere({step, dead}, null)
      ensures Valid()
    {
      var s, kids := old(chains)[step], old(chains)[dead];
      var t := Reversed(kids) + s;
      assert old(ChainOk(step)) && old(ChainOk(dead));
      forall n | n in s ensures n !in kids { NotBoth(dead, step, n); }
      MergedMembers(s, kids);
      assert Closed() by { ShapedMerge(nodes, old(chains), loose, step, dead); }
      hide Valid, Elsewhere, Shaped, Distinct, Linked, At, Reversed;
      ChainIs(step, t);
      assert ChainOk(dead) by { Childless(dead); }
      forall n | n in nodes && InOneOf(old(chains), {step, dead}, n)
        ensures n !in loose && n.parent in chains && n in chains[n.parent]
             && (n.parent != null ==> n.parent.depth < n.depth)
      {
        assert n in t;
        OneParent(step, n);
        if n in s { WasBelow(step, n); }
      }
      hide ChainOk, InOneOf, Placed;
      Rebuilt({step, dead}, null);
    }

    lemma Childless(q: Node)
      requires Closed() && q in chains && chains[q] == [] && q.child == null
      ensures ChainOk(q)
    {
    }

    // family_adopt, still without the view.
    method TakeOver(step: Node, dead: Node, ghost s: seq<Node>, ghost kids: seq<Node>)
      requires step.child == At(s, 0) && Linked(step, s, NO_HOLE)
      requires dead.child == At(kids, 0) && Linked(dead, kids, NO_HOLE)
      requires Distinct(s + kids) && step != dead && step in nodes && dead in nodes
      requires step !in s && step !in kids && dead !in kids
      requires forall n :: n in s || n in kids ==> n in nodes
      modifies nodes
      ensures Linked(step, Reversed(kids) + s, NO_HOLE) && step.child == At(Reversed(kids) + s, 0)
      ensures dead.child == null
      ensures forall n :: n in nodes && n !in s && n !in kids ==>
                n.parent == old(n.parent) && n.next == old(n.next) && n.prev == old(n.prev)
      ensures forall n :: n in nodes && n != step && n != dead ==> n.child == old(n.child)
    {
      Family.Adopt(step, dead, s, kids);
    }

    // family_adopt
    method Adopt(step: Node, dead: Node)
      requires Valid() && step in nodes && dead in nodes && step != dead
      requires forall n :: n in chains[dead] ==> step.depth < n.depth
      modifies this`chains, nodes
      ensures Valid()
      ensures chains == old(chains)[step := Reversed(old(chains[dead])) + old(chains[step])][dead := []]
    {
      ghost var s, kids := chains[step], chains[dead];
      TwoChains(step, dead);
      hide Valid, ChainOk, Placed, Distinct, Linked, At, Reversed, Shaped;
      TakeOver(step, dead, s, kids);
      chains := chains[step := Reversed(kids) + s][dead := []];
      assert Elsewhere({step, dead}, null) by { InTwo(old(chains), step, dead); }
      Merged(step, dead);
    }

    lemma TwoChains(step: Node, dead: Node)
      requires Valid() && step in nodes && dead in nodes && step != dead
      requires forall n :: n in chains[dead] ==> step.depth < n.depth
      ensures var s, kids := chains[step], chains[dead];
              && step.child == At(s, 0) && Linked(step, s, NO_HOLE)
              && dead.child == At(kids, 0) && Linked(dead, kids, NO_HOLE)
              && Distinct(s + kids) && step !in s && step !in kids && dead !in kids
              && forall n :: n in s || n in kids ==> n in nodes
    {
      ChainMembers(step);
      ChainMembers(dead);
      assert ChainOk(step) && ChainOk(dead);
      DistinctJoin(chains[step], chains[dead]);
    }

    lemma ChainIs(q: Node?, t: seq<Node>)
      requires Closed() && q in chains && chains[q] == t
      requires Distinct(t) && Linked(q, t, NO_HOLE) && (q != null ==> q.child == At(t, 0))
      ensures ChainOk(q)
    {
    }

    lemma Freed(fam: Node)
      requires fam in loose && fam.parent == null && fam.next == null && fam.prev == null
      ensures Placed(fam)
    {
    }

    lemma InRoots(n: Node)
      requires Valid() && n in nodes && n !in loose && n.parent == null
      ensures null in chains && n in chains && n in chains[null]
    {
      assert Placed(n);
    }

    // The body of the loop of delete_thread over the children of a root.
    method OrphanOne(tr: Node, child: Node)
      requires Valid() && tr in nodes && loose == {} && tr.parent == null && tr.child == child
      modifies this`chains, this`loose, nodes
      ensures Valid() && loose == {} && tr.parent == null && chains.Keys == old(chains.Keys)
      ensures old(chains[tr]) != [] && old(chains[tr])[0] == child
      ensures chains == old(chains)[tr := old(chains[tr])[1..]][null := InsertAfter(old(chains[null]), tr, child)]
      ensures tr.child == At(chains[tr], 0)
    {
      hide Valid, Placed, ChainOk, Shaped, Closed, InsertAfter;
      FirstChild(tr, child);
      InRoots(tr);
      WithoutFirst(chains[tr]);
      Remove(child);
      IsRoot(tr);
      KeepsRoots(chains[null], tr, child);
      AddSibling(tr, child);
      IsRoot(tr);
      ChildIs(tr);
    }

    lemma IsRoot(n: Node)
      requires Valid() && null in chains && n in chains[null]
      ensures n.parent == null && n in nodes && n !in loose && n in chains
    {
      ChainMembers(null);
    }

    lemma FirstChild(tr: Node, child: Node)
      requires Valid() && tr in nodes && tr.child == child
      ensures chains[tr] != [] && chains[tr][0] == child
      ensures child in nodes && child !in loose && child.parent == tr && child != tr
    {
      assert ChainOk(tr);
      ChainMembers(tr);
    }

    lemma ChildIs(tr: Node)
      requires Valid() && tr in nodes
      ensures tr in chains && tr.child == At(chains[tr], 0)
    {
      assert ChainOk(tr);
    }

    // The loop of delete_thread over the children of a root.
    method Orphan(tr: Node, ghost i: nat)
      requires Valid() && tr in nodes && loose == {} && tr.parent == null
      requires null in chains && i < |chains[null]| && chains[null][i] == tr
      modifies this`chains, this`loose, nodes
      ensures Valid() && loose == {} && tr.parent == null
      ensures chains == Orphaned(old(chains), tr, i, |old(chains[tr])|)
    {
      hide Valid, ChainOk, Orphaned, InsertAfter, At;
      ghost var was := chains;
      ghost var k := 0;
      var child := tr.child;
      ChildIs(tr);
      RootsDistinct();
      OrphanedStart(was, tr, i);
      while child != null
        invariant Valid() && loose == {} && tr in nodes && tr.parent == null
        invariant 0 <= k <= |was[tr]| && child == tr.child == At(was[tr][k..], 0)
        invariant chains == Orphaned(was, tr, i, k)
        decreases |was[tr]| - k
      {
        OrphanStep(was, tr, i, k, child);
        OrphanOne(tr, child);
        child := tr.child;
        k := k + 1;
      }
      AllOrphaned(was[tr], k);
    }

    lemma RootsDistinct()
      requires Valid()
      ensures null in chains && Distinct(chains[null])
    {
      assert ChainOk(null);
    }

    // kfree: a node without children that is in no chain is gone.
    ghost method Forget(n: Node)
      requires Valid() && n in loose && n in chains && chains[n] == []
      modifies this`nodes, this`chains, this`loose
      ensures Valid() && nodes == old(nodes) - {n} && loose == old(loose) - {n} && chains == old(chains) - {n}
    {
      hide Linked, Distinct, At;
      ghost var c := chains;
      assert forall q :: q in chains ==> ChainOk(q);
      nodes := nodes - {n};
      loose := loose - {n};
      chains := chains - {n};
      forall q, m | q in chains && m in chains[q] ensures m in nodes && m !in loose {
        assert m in c[q];
      }
    }

    lemma HasParent(p: Node?, n: Node)
      requires Valid() && p in chains && n in chains[p]
      ensures n.parent == p && n in nodes && n !in loose
    {
      ChainMembers(p);
    }

    lemma StepsOver(tr: Node)
      requires Valid() && tr in nodes && tr !in loose
      ensures tr.parent in chains && tr in chains && tr in chains[tr.parent] && tr !in chains[tr]
      ensures tr.parent != null ==>
                && tr.parent in nodes && tr.parent != tr
                && forall n :: n in chains[tr] ==> tr.parent.depth < n.depth
    {
      assert Placed(tr);
      ChainMembers(tr);
    }

    // What delete_thread and remove_process do with the children before they take the node itself out.
    method SaveChildren(tr: Node)
      requires Valid() && tr in nodes && loose == {}
      modifies this`chains, this`loose, nodes
      ensures Valid() && loose == {} && tr.parent == old(tr.parent)
      ensures tr in chains && chains[tr] == [] && old(tr.parent) in chains && null in chains && null in old(chains)
      ensures chains[old(tr.parent) := Without(chains[old(tr.parent)], tr)] - {tr}
           == Inherited(old(chains), old(tr.parent), tr)
      ensures At(chains[null], 0) == At(old(chains[null]), 0)
    {
      hide Valid, Linked, Distinct, Reversed, Without, Inherited, Placed, ChainOk;
      ghost var i := Place(tr);
      ghost var was := chains;
      StepsOver(tr);
      RootsDistinct();
      var parent := tr.parent;
      if parent != null {
        Adopt(parent, tr);
        AdoptedWell(was, parent, tr);
        HasParent(parent, tr);
      } else {
        Orphan(tr, i);
        OrphanedWell(was, tr, i);
      }
    }

    // The position after a node's in its chain.
    lemma NextIs(tr: Node, i: nat)
      requires Valid() && tr.parent in chains && i < |chains[tr.parent]| && chains[tr.parent][i] == tr
      ensures tr.next == At(chains[tr.parent], i + 1)
    {
      assert ChainOk(tr.parent) && Link(tr.parent, chains[tr.parent], i, NO_HOLE);
    }

    // The tree part of delete_thread: exactly the deleted thread is gone, and its children are where
    // Inherited puts them.
    method DeleteThread(tr: Node)
      requires Valid() && Headed() && loose == {} && tr in nodes
      modifies this, nodes
      ensures Valid() && Headed() && loose == {} && nodes == old(nodes) - {tr}
      ensures chains == Inherited(old(chains), old(tr.parent), tr)
    {
      hide Valid, Linked, Distinct, Without, Inherited, Placed, ChainOk, At;
      count := count - 1;
      SaveChildren(tr);
      ghost var i := Place(tr);
      ghost var p, s := tr.parent, chains[tr.parent];
      var next := tr.next;
      NextIs(tr, i);
      HeadMoves(s, i);
      if p != null { NotARoot(tr); }
      Remove(tr);
      if head == tr {
        head := next;
      }
      Forget(tr);
    }

    // A forest without roots is empty: every node has an ancestor of least depth.
    lemma NoRoots()
      requires Valid() && loose == {} && null in chains && chains[null] == []
      ensures nodes == {}
    {
      if n :| n in nodes {
        Climb(n);
      }
    }

    lemma {:induction false} Climb(n: Node)
      requires Valid() && loose == {} && n in nodes && null in chains && chains[null] == []
      ensures false
      decreases n.depth
    {
      assert Placed(n);
      if n.parent != null {
        Climb(n.parent);
      }
    }

    // The loop of gc_do_process: it ends, with every thread deleted.
    method DeleteAll()
      requires Valid() && Headed() && loose == {}
      modifies this, nodes
      ensures Valid() && Headed() && loose == {} && nodes == {} && head == null && count == 0
    {
      while head != null
        invariant Valid() && Headed() && loose == {} && nodes <= old(nodes)
        decreases |nodes|
      {
        IsRoot(head);
        ghost var before := nodes;
        DeleteThread(head);
        assert before == nodes + {old(head)} || |nodes| < |before|;
      }
      NoRoots();
    }

    // kmalloc and family_init: a new node, in no chain yet.
    ghost method Include(n: Node)
      requires Valid() && n !in nodes && n.parent == null && n.child == null && n.prev == null && n.next == null
      modifies this`nodes, this`chains, this`loose
      ensures Valid() && nodes == old(nodes) + {n} && loose == old(loose) + {n} && chains == old(chains)[n := []]
    {
      hide Linked, Distinct, At;
      ShapedInclude(nodes, chains, loose, n);
      hide Shaped;
      nodes := nodes + {n};
      loose := loose + {n};
      chains := chains[n := []];
      Childless(n);
      forall q | q in chains ensures ChainOk(q) { assert q != n ==> old(ChainOk(q)); }
      forall m | m in nodes ensures Placed(m) { assert m != n ==> old(Placed(m)); }
    }

    // proc->threads = tr, in an empty forest.
    ghost method FirstRoot(n: Node)
      requires Valid() && n in loose && null in chains && chains[null] == []
      modifies this`chains, this`loose
      ensures Valid() && loose == old(loose) - {n} && chains == old(chains)[null := [n]]
      ensures At(chains[null], 0) == n
    {
      assert Placed(n) && At([n], 0) == n;
      ShapedRoot(nodes, chains, loose, n);
      hide Linked, Distinct, At, Shaped;
      chains := chains[null := [n]];
      loose := loose - {n};
      SingleOk(n);
      forall q | q in chains ensures ChainOk(q) { assert q != null ==> old(ChainOk(q)); }
      forall m | m in nodes ensures Placed(m) { assert old(Placed(m)); }
    }

    lemma SingleOk(n: Node)
      requires Closed() && null in chains && chains[null] == [n] && n.parent == null && n.prev == null && n.next == null
      ensures ChainOk(null)
    {
      assert Link(null, [n], 0, NO_HOLE);
    }

    lemma HeadIs()
      requires Valid() && HeadOk()
      ensures null in chains
      ensures chains[null] == [] ==> head == null
      ensures chains[null] != [] ==>
                && head == chains[null][0]
                && head in nodes && head !in loose && head.parent == null
    {
      ChainMembers(null);
    }

    // The forest part of new_thread; insert_process is the same with a parent.
    method NewThread(parent: Node?) returns (tr: Node)
      requires Valid() && Headed() && loose == {} && (parent != null ==> parent in nodes)
      modifies this, nodes
      ensures Valid() && Headed() && loose == {} && fresh(tr) && nodes == old(nodes) + {tr}
      ensures var was := old(chains)[tr := []];
              chains == if old(head) == null then was[null := [tr]]
                        else if parent == null then was[null := InsertAfter(old(chains[null]), old(head), tr)]
                        else was[parent := [tr] + was[parent]]
    {
      hide Valid, Placed, ChainOk, Linked, Distinct, At, InsertAfter;
      HeadIs();
      tr := new Node(if parent == null then 0 else parent.depth + 1);
      Include(tr);
      if head == null {
        head := tr;
        FirstRoot(tr);
      } else if parent == null {
        AddSibling(head, tr);
        HeadStays(old(chains[null]), tr);
      } else {
        AddChild(parent, tr);
      }
      count := count + 1;
    }

    // The tree part of insert_process.
    method InsertProcess(parent: Node?, proc: Node)
      requires Valid() && HeadOk() && loose == {proc} && (head != null ==> parent != null)
      requires chains[proc] == [] && (parent != null ==> parent in nodes && parent.depth < proc.depth)
      modifies this, nodes
      ensures Valid() && HeadOk() && loose == {} && nodes == old(nodes)
      ensures chains == if old(head) == null then old(chains)[null := [proc]]
                        else old(chains)[parent := [proc] + old(chains[parent])]
    {
      hide Valid, Placed, ChainOk, Linked, Distinct, At;
      HeadIs();
      if head == null {
        head := proc;
        FirstRoot(proc);
      } else {
        AddChild(parent, proc);
      }
    }

    // The tree part of remove_process, for which smk is always a parent.
    method RemoveProcess(proc: Node)
      requires Valid() && HeadOk() && loose == {} && proc in nodes && proc.parent != null
      modifies this, nodes
      ensures Valid() && HeadOk() && loose == {} && nodes == old(nodes) - {proc} && head == old(head)
      ensures chains == Inherited(old(chains), old(proc.parent), proc)
    {
      hide Valid, Linked, Distinct, Reversed, Without, Inherited, Placed, ChainOk, At;
      ghost var was := chains;
      StepsOver(proc);
      HeadIs();
      var parent := proc.parent;
      Adopt(parent, proc);
      AdoptedWell(was, parent, proc);
      HasParent(parent, proc);
      Remove(proc);
      Forget(proc);
    }

    // a is a proper ancestor of n.
    ghost predicate Ancestor(a: Node, n: Node)
      requires Valid() && n in nodes
      reads this, nodes
      decreases n.depth
    {
      assert Placed(n);
      n.parent != null && n.parent in nodes && (n.parent == a || Ancestor(a, n.parent))
    }

    twostate predicate Deleted(new tr: Node)
      reads this, nodes
    {
      && old(Valid()) && Valid() && old(loose) == {} && loose == {}
      && tr in old(nodes) && nodes == old(nodes) - {tr}
      && old(tr.parent) in old(chains) && tr in old(chains)
      && chains == Inherited(old(chains), old(tr.parent), tr)
    }

    // Everyone keeps its parent, except that the children of the deleted node have its parent.
    twostate lemma ParentsAfter(new tr: Node, new n: Node)
      requires Deleted(tr) && n in nodes
      ensures n.parent == if old(n.parent) == tr then old(tr.parent) else old(n.parent)
    {
      ghost var p, q := old(tr.parent), n.parent;
      assert Placed(n) && old(Placed(tr)) && old(ChainOk(p));
      assert p != tr && q in chains && n in chains[q] && Distinct(old(chains)[p]);
      hide Valid, Placed, ChainOk, Inherited, Distinct;
      InheritedMembers(old(chains), p, tr, q, n);
      WasParent(if n in old(chains)[q] then q else tr, n);
    }

    twostate lemma WasParent(new q: Node?, new n: Node)
      requires old(Valid()) && q in old(chains) && n in old(chains)[q]
      ensures n in old(nodes) && old(n.parent) == q
    {
      var i :| 0 <= i < |old(chains)[q]| && old(chains)[q][i] == n;
      assert old(ChainOk(q)) && old(Link(q, chains[q], i, NO_HOLE));
    }

    // Deleting a node changes nothing about who descends from whom among the others.
    twostate lemma {:induction false} AncestorsKept(new tr: Node, new a: Node, new n: Node)
      requires Deleted(tr) && a in nodes && n in nodes
      ensures Ancestor(a, n) <==> old(Ancestor(a, n))
      decreases n.depth
    {
      ParentsAfter(tr, n);
      assert Placed(n) && old(Placed(n)) && old(Placed(tr));
      if n.parent != null {
        AncestorsKept(tr, a, n.parent);
      }
    }

    lemma NotARoot(tr: Node)
      requires Valid() && tr.parent != null
      ensures null in chains && tr !in chains[null] && At(chains[null], 0) != tr
    {
      ChainMembers(null);
    }
  }

  lemma {:induction false} ReplaceMembers(s: seq<Node>, n: Node, r: seq<Node>, m: Node)
    requires Distinct(s) && m in Replace(s, n, r)
    ensures (m in s && m != n) || (n in s && m in r)
  {
    if s != [] {
      if s[0] == n {
        assert forall i :: 1 <= i < |s| ==> s[i] != s[0];
      } else if m != s[0] {
        ReplaceMembers(s[1..], n, r, m);
      }
    }
  }

  lemma {:induction false} WithoutMembers(s: seq<Node>, n: Node, m: Node)
    requires Distinct(s) && m in Without(s, n)
    ensures m in s && m != n
  {
    if s != [] {
      if s[0] == n {
        assert forall i :: 1 <= i < |s| ==> s[i] != s[0];
      } else if m != s[0] {
        WithoutMembers(s[1..], n, m);
      }
    }
  }

  lemma InheritedMembers(chains: map<Node?, seq<Node>>, p: Node?, tr: Node, q: Node?, m: Node)
    requires p in chains && tr in chains && p != tr && Distinct(chains[p])
    requires q in Inherited(chains, p, tr) && m in Inherited(chains, p, tr)[q]
    ensures q in chains && q != tr && (m in chains[q] || (q == p && m in chains[tr]))
  {
    hide Without, Replace, Reversed, Distinct;
    var kids := Reversed(chains[tr]);
    if q == p {
      if m in kids {
        var i :| 0 <= i < |kids| && kids[i] == m;
        assert kids[i] == chains[tr][|kids| - 1 - i];
      } else if p == null {
        ReplaceMembers(chains[p], tr, kids, m);
      } else {
        WithoutMembers(chains[p], tr, m);
      }
    }
  }

  lemma HeadStays(s: seq<Node>, n: Node)
    requires s != []
    ensures At(InsertAfter(s, s[0], n), 0) == s[0]
  {
  }

  lemma HeadMoves(s: seq<Node>, i: nat)
    requires i < |s| && Distinct(s)
    ensures At(Without(s, s[i]), 0) == if At(s, 0) == s[i] then At(s, i + 1) else At(s, 0)
  {
  }

  lemma AdoptedWell(chains: map<Node?, seq<Node>>, p: Node, tr: Node)
    requires null in chains && p in chains && tr in chains && p != tr && tr in chains[p] && tr !in chains[tr]
    ensures var merged := chains[p := Reversed(chains[tr]) + chains[p]][tr := []];
            && merged[p := Without(merged[p], tr)] - {tr} == Inherited(chains, p, tr)
            && tr in merged[p]
  {
    var kids := Reversed(chains[tr]);
    assert tr !in kids;
    WithoutLater(kids, chains[p], tr);
    hide Reversed, Without;
  }

  lemma OrphanedWell(chains: map<Node?, seq<Node>>, tr: Node, i: nat)
    requires null in chains && tr in chains && i < |chains[null]| && chains[null][i] == tr && Distinct(chains[null])
    ensures var now := Orphaned(chains, tr, i, |chains[tr]|);
            && now[tr] == [] && now[null := Without(now[null], tr)] - {tr} == Inherited(chains, null, tr)
            && At(now[null], 0) == At(chains[null], 0)
  {
    assert chains[tr][..|chains[tr]|] == chains[tr];
    RootsWithout(chains[null], i, chains[tr]);
    hide Reversed, Replace, Without, OrphanedRoots;
  }

  lemma RootsWithout(s: seq<Node>, i: nat, kids: seq<Node>)
    requires i < |s| && Distinct(s)
    ensures var now := OrphanedRoots(s, i, kids, |kids|);
            Without(now, s[i]) == Replace(s, s[i], Reversed(kids)) && At(now, 0) == At(s, 0)
  {
    var x, a, b, r := s[i], s[..i], s[i + 1..], Reversed(kids);
    assert kids[..|kids|] == kids && s[..i + 1] == a + [x];
    ReplaceIs(s, i, r);
    assert x !in a;
    hide Reversed, Replace, Distinct;
    Regrouped(a, x, r, b);
    WithoutLater(a, [x] + (r + b), x);
    FirstGoes(x, r + b);
  }

  lemma Regrouped(a: seq<Node>, x: Node, r: seq<Node>, b: seq<Node>)
    ensures a + [x] + r + b == a + ([x] + (r + b)) && a + (r + b) == a + r + b
  {
  }

  lemma FirstGoes(x: Node, t: seq<Node>)
    ensures Without([x] + t, x) == t
  {
    WithoutFirst([x] + t);
    assert ([x] + t)[1..] == t;
  }

  // The chains when k children of the i-th root have been moved behind it.
  function Orphaned(chains: map<Node?, seq<Node>>, tr: Node, i: nat, k: nat): (r: map<Node?, seq<Node>>)
    requires null in chains && tr in chains && i < |chains[null]| && k <= |chains[tr]|
  {
    chains[tr := chains[tr][k..]][null := OrphanedRoots(chains[null], i, chains[tr], k)]
  }

  function OrphanedRoots(roots: seq<Node>, i: nat, kids: seq<Node>, k: nat): (r: seq<Node>)
    requires i < |roots| && k <= |kids|
  {
    roots[..i + 1] + Reversed(kids[..k]) + roots[i + 1..]
  }

  lemma OrphanedStart(chains: map<Node?, seq<Node>>, tr: Node, i: nat)
    requires null in chains && tr in chains && i < |chains[null]|
    ensures Orphaned(chains, tr, i, 0) == chains && chains[tr][0..] == chains[tr]
  {
    assert chains[tr][..0] == [];
    assert OrphanedRoots(chains[null], i, chains[tr], 0) == chains[null];
  }

  lemma OrphanedRootsStep(roots: seq<Node>, i: nat, kids: seq<Node>, k: nat)
    requires i < |roots| && Distinct(roots) && k < |kids|
    ensures OrphanedRoots(roots, i, kids, k + 1) == InsertAfter(OrphanedRoots(roots, i, kids, k), roots[i], kids[k])
  {
    hide Reversed;
    var t := OrphanedRoots(roots, i, kids, k);
    assert t[..i + 1] == roots[..i + 1] && t[i + 1..] == Reversed(kids[..k]) + roots[i + 1..];
    InsertAfterInserts(t, i, kids[k]);
    assert Reversed(kids[..k + 1]) == [kids[k]] + Reversed(kids[..k]);
  }

  lemma OrphanStep(chains: map<Node?, seq<Node>>, tr: Node, i: nat, k: nat, child: Node)
    requires null in chains && tr in chains && i < |chains[null]| && k <= |chains[tr]|
    requires Distinct(chains[null]) && chains[null][i] == tr && child == At(chains[tr][k..], 0)
    ensures k < |chains[tr]|
    ensures var now := Orphaned(chains, tr, i, k);
            && now[tr] != [] && now[tr][1..] == chains[tr][k + 1..]
            && now[tr := now[tr][1..]][null := InsertAfter(now[null], tr, child)] == Orphaned(chains, tr, i, k + 1)
  {
    hide OrphanedRoots, InsertAfter;
    OrphanedRootsStep(chains[null], i, chains[tr], k);
    assert chains[tr][k..][1..] == chains[tr][k + 1..];
  }

  lemma AllOrphaned(kids: seq<Node>, k: nat)
    requires k <= |kids| && At(kids[k..], 0) == null
    ensures k == |kids|
  {
  }
}
