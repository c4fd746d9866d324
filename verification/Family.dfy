// The links of struct ds_family_tree (kernel/ds/family.h): a parent, a first child, two siblings.
module Family {
  import opened Sequences

  // `depth` is chosen once, greater than that of every ancestor; it rules out cycles.
  class Node {
    var parent: Node?
    var child: Node?
    var prev: Node?
    var next: Node?
    ghost const depth: nat

    // family_init
    constructor (ghost depth: nat)
      ensures parent == null && child == null && prev == null && next == null && this.depth == depth
    {
      parent, child, prev, next := null, null, null, null;
      this.depth := depth;
    }
  }

  function At(s: seq<Node>, i: int): Node? {
    if 0 <= i < |s| then s[i] else null
  }

  lemma Differ(s: seq<Node>, i: int, j: int)
    requires Distinct(s) && 0 <= i < |s|
    ensures i != j ==> s[i] != At(s, j)
  {
  }

  // A chain of siblings may have a hole: a member that the links of its neighbours lead past.
  const NO_HOLE := -2

  ghost predicate Link(p: Node?, s: seq<Node>, i: int, hole: int)
    requires 0 <= i < |s|
    reads s`parent, s`next, s`prev
  {
    && s[i].parent == p
    && s[i].next == At(s, if i + 1 == hole then i + 2 else i + 1)
    && s[i].prev == At(s, if i - 1 == hole then i - 2 else i - 1)
  }

  ghost predicate Linked(p: Node?, s: seq<Node>, hole: int)
    reads s`parent, s`next, s`prev
  {
    forall i :: 0 <= i < |s| && i != hole ==> Link(p, s, i, hole)
  }

  lemma DropHole(p: Node?, s: seq<Node>, i: nat)
    requires i < |s| && Linked(p, s, i)
    ensures Linked(p, Drop(s, i), NO_HOLE)
  {
    var t := Drop(s, i);
    forall j | 0 <= j < |t| ensures Link(p, t, j, NO_HOLE) {
      var k := if j < i then j else j + 1;
      assert Link(p, s, k, i);
    }
  }

  lemma OpenHole(p: Node?, s: seq<Node>, i: nat)
    requires i < |s| && Linked(p, Drop(s, i), NO_HOLE)
    ensures Linked(p, s, i)
  {
    var t := Drop(s, i);
    forall k | 0 <= k < |s| && k != i ensures Link(p, s, k, i) {
      var j := if k < i then k else k - 1;
      assert Link(p, t, j, NO_HOLE);
    }
  }

  // Only the neighbours of position i have changed their links, to pass it or to include it.
  twostate predicate OnlyAround(s: seq<Node>, i: nat)
    reads s`parent, s`next, s`prev
  {
    && (forall k :: 0 <= k < |s| && k != i ==> s[k].parent == old(s[k].parent))
    && (forall k :: 0 <= k < |s| && k != i && k != i - 1 ==> s[k].next == old(s[k].next))
    && (forall k :: 0 <= k < |s| && k != i && k != i + 1 ==> s[k].prev == old(s[k].prev))
  }

  twostate lemma MakeHole(s: seq<Node>, new i: nat)
    requires i < |s| && OnlyAround(s, i) && old(Linked(s[i].parent, s, NO_HOLE))
    requires i > 0 ==> s[i - 1].next == At(s, i + 1)
    requires i + 1 < |s| ==> s[i + 1].prev == At(s, i - 1)
    ensures Linked(old(s[i].parent), s, i)
  {
    ghost var p := old(s[i].parent);
    forall k | 0 <= k < |s| && k != i ensures Link(p, s, k, i) {
      assert old(Link(s[i].parent, s, k, NO_HOLE));
    }
  }

  // family_remove. The node keeps its children; s is the chain it leaves, i its position.
  method Unlink(fam: Node, ghost s: seq<Node>, ghost i: nat)
    requires i < |s| && s[i] == fam && Linked(fam.parent, s, NO_HOLE) && Distinct(s)
    requires fam.parent != null ==> fam.parent.child == At(s, 0) && fam.parent !in s
    modifies s, fam.parent
    ensures Linked(old(fam.parent), Drop(s, i), NO_HOLE)
    ensures fam.parent == null && fam.prev == null && fam.next == null
    ensures old(fam.parent) != null ==>
              var p := old(fam.parent);
              p.child == At(Drop(s, i), 0) && Untouched(p)
    ensures forall n :: n in s ==> n.child == old(n.child)
  {
    ghost var p := fam.parent;
    assert Link(p, s, i, NO_HOLE);
    if fam.parent != null {
      if fam.parent.child == fam {
        fam.parent.child := fam.next;
      }
    }
    if fam.prev != null { fam.prev.next := fam.next; }
    if fam.next != null { fam.next.prev := fam.prev; }
    fam.parent := null;
    fam.next := null;
    fam.prev := null;
    forall k ensures 0 <= k < |s| && k != i ==> s[k] != fam { if 0 <= k < |s| { Differ(s, k, i); } }
    forall k ensures 0 <= k < |s| && k != i - 1 ==> s[k] != At(s, i - 1) { if 0 <= k < |s| { Differ(s, k, i - 1); } }
    forall k ensures 0 <= k < |s| && k != i + 1 ==> s[k] != At(s, i + 1) { if 0 <= k < |s| { Differ(s, k, i + 1); } }
    hide Linked, Distinct;
    assert OnlyAround(s, i);
    hide OnlyAround;
    MakeHole(s, i);
    DropHole(p, s, i);
    Differ(s, 0, i);
  }

  // The parent of the members other than position i.
  ghost function Above(s: seq<Node>, i: nat): Node?
    reads s
  {
    if |s| < 2 then null else if i > 0 then s[0].parent else s[1].parent
  }

  twostate lemma CloseHole(s: seq<Node>, new i: nat)
    requires i < |s| && OnlyAround(s, i)
    requires |s| > 1 ==> old(Linked(Above(s, i), s, i)) && s[i].parent == old(Above(s, i))
    requires s[i].prev == At(s, i - 1) && s[i].next == At(s, i + 1)
    requires i > 0 ==> s[i - 1].next == s[i]
    requires i + 1 < |s| ==> s[i + 1].prev == s[i]
    ensures Linked(s[i].parent, s, NO_HOLE)
  {
    forall k | 0 <= k < |s| ensures Link(s[i].parent, s, k, NO_HOLE) {
      if k != i {
        assert old(Link(Above(s, i), s, k, i));
      }
    }
  }

  function Insert(s: seq<Node>, i: int, n: Node): (r: seq<Node>)
    requires 0 <= i <= |s|
    ensures |r| == |s| + 1 && r[i] == n && Drop(r, i) == s
  {
    var r := s[..i] + [n] + s[i..];
    assert r[..i] + r[i + 1..] == s;
    r
  }

  // The hole that a node outside the chain is about to fill.
  lemma AboutToFill(p: Node?, s: seq<Node>, i: nat, n: Node)
    requires i <= |s| && Linked(p, s, NO_HOLE) && Distinct(s) && n !in s
    ensures var t := Insert(s, i, n);
            && Distinct(t) && Linked(p, t, i)
            && (|t| > 1 ==> Above(t, i) == p)
  {
    var t := Insert(s, i, n);
    OpenHole(p, t, i);
    if |t| > 1 { assert Link(p, t, if i > 0 then 0 else 1, i); }
    forall j, k | 0 <= j < k < |t| ensures t[j] != t[k] {
      assert j != i ==> t[j] == s[if j < i then j else j - 1];
      assert k != i ==> t[k] == s[if k < i then k else k - 1];
    }
  }

  // family_add_sibling: right after `bro`, at position i of its chain.
  method AddSibling(bro: Node, fam: Node, ghost s: seq<Node>, ghost i: nat)
    requires i < |s| && s[i] == bro && Linked(bro.parent, s, NO_HOLE) && Distinct(s) && fam !in s
    requires fam.parent == null && fam.prev == null && fam.next == null
    modifies s, fam
    ensures Linked(old(bro.parent), Insert(s, i + 1, fam), NO_HOLE) && fam.parent == old(bro.parent)
    ensures forall n :: n in s || n == fam ==> n.child == old(n.child)
  {
    ghost var t := Insert(s, i + 1, fam);
    AboutToFill(bro.parent, s, i + 1, fam);
    assert bro == t[i] && Link(bro.parent, t, i, i + 1);
    if bro.next != null { bro.next.prev := fam; }
    fam.next := bro.next;
    fam.prev := bro;
    bro.next := fam;
    fam.parent := bro.parent;
    hide Linked, Distinct, Insert;
    assert OnlyAround(t, i + 1) by { Others(t, i + 1); }
    hide OnlyAround, At;
    CloseHole(t, i + 1);
  }

  // A member of s is at one position only, and so are its neighbours.
  lemma Others(s: seq<Node>, i: nat)
    requires Distinct(s) && i < |s|
    ensures forall k :: 0 <= k < |s| && k != i ==> s[k] != s[i]
    ensures forall k :: 0 <= k < |s| && k != i - 1 ==> s[k] != At(s, i - 1)
    ensures forall k :: 0 <= k < |s| && k != i + 1 ==> s[k] != At(s, i + 1)
  {
  }

  lemma FrontOthers(s: seq<Node>)
    requires Distinct(s)
    ensures forall k :: 1 <= k < |s| ==> s[k] != s[0]
    ensures forall k :: 2 <= k < |s| ==> s[k] != s[1]
  {
  }

  // family_add_child: in front of the chain.
  method AddChild(parent: Node, fam: Node, ghost s: seq<Node>)
    requires parent.child == At(s, 0) && Linked(parent, s, NO_HOLE) && Distinct(s) && fam !in s
    requires parent !in s && parent != fam
    requires fam.parent == null && fam.prev == null && fam.next == null
    modifies s, fam, parent
    ensures Linked(parent, Insert(s, 0, fam), NO_HOLE) && parent.child == fam && fam.parent == parent
    ensures Untouched(parent)
    ensures forall n :: n in s || n == fam ==> n.child == old(n.child)
  {
    ghost var t := Insert(s, 0, fam);
    AboutToFill(parent, s, 0, fam);
    FrontOthers(t);
    assert parent.child == At(t, 1) && parent !in t;
    hide Linked, Distinct, Insert, Link, Above;
    if parent.child != null {
      parent.child.prev := fam;
      fam.next := parent.child;
    }
    parent.child := fam;
    fam.parent := parent;
    assert OnlyAround(t, 0);
    hide OnlyAround, At;
    CloseHole(t, 0);
  }

  function Reversed(s: seq<Node>): (r: seq<Node>)
    ensures |r| == |s| && forall i :: 0 <= i < |s| ==> r[i] == s[|s| - 1 - i]
  {
    if s == [] then [] else Reversed(s[1..]) + [s[0]]
  }

  // The body of the loop of family_adopt; what links tmp had does not matter.
  method MoveToFront(stepParent: Node, tmp: Node, ghost s: seq<Node>)
    requires stepParent.child == At(s, 0) && Linked(stepParent, s, NO_HOLE) && Distinct(s) && tmp !in s
    requires stepParent !in s && stepParent != tmp
    modifies s, tmp, stepParent
    ensures Linked(stepParent, Insert(s, 0, tmp), NO_HOLE) && stepParent.child == tmp
    ensures Untouched(stepParent)
    ensures forall n :: n in s || n == tmp ==> n.child == old(n.child)
  {
    ghost var t := Insert(s, 0, tmp);
    AboutToFill(stepParent, s, 0, tmp);
    assert stepParent.child == At(t, 1) && stepParent !in t && tmp == t[0] && (1 < |t| ==> t[1] != t[0]);
    hide Linked, Insert, Link, Above, Distinct;
    tmp.parent := stepParent;
    tmp.prev := null;
    tmp.next := stepParent.child;
    if stepParent.child != null {
      stepParent.child.prev := tmp;
    }
    stepParent.child := tmp;
    assert t[0].prev == At(t, -1) && t[0].next == At(t, 1) && (1 < |t| ==> t[1].prev == t[0]);
    assert Untouched(stepParent);
    assert OnlyAround(t, 0) by { FrontOthers(t); }
    hide OnlyAround, At, Untouched;
    CloseHole(t, 0);
  }

  // How far family_adopt has come after k children.
  function Adopted(s: seq<Node>, kids: seq<Node>, k: nat): (t: seq<Node>)
    requires k <= |kids|
  {
    Reversed(kids[..k]) + s
  }

  // Its members are distinct places of s + kids.
  function Source(n: nat, k: nat, i: nat): int {
    if i < k then n + k - 1 - i else i - k
  }

  lemma AdoptedAt(s: seq<Node>, kids: seq<Node>, k: nat, i: nat)
    requires k <= |kids| && i < |Adopted(s, kids, k)|
    ensures 0 <= Source(|s|, k, i) < |s| + k && |Adopted(s, kids, k)| == |s| + k
    ensures Adopted(s, kids, k)[i] == (s + kids)[Source(|s|, k, i)]
  {
  }

  lemma AdoptedStep(s: seq<Node>, kids: seq<Node>, k: nat)
    requires k < |kids|
    ensures Adopted(s, kids, k + 1) == Insert(Adopted(s, kids, k), 0, kids[k])
  {
    var t := Adopted(s, kids, k);
    OneMoreReversed(kids, k);
    assert t[..0] == [] && t[0..] == t;
    hide Reversed;
    assert Adopted(s, kids, k + 1) == [kids[k]] + t;
  }

  lemma OneMoreReversed(kids: seq<Node>, k: nat)
    requires k < |kids|
    ensures Reversed(kids[..k + 1]) == [kids[k]] + Reversed(kids[..k])
  {
    var r, t := Reversed(kids[..k + 1]), Reversed(kids[..k]);
    assert forall i :: 0 <= i < k ==> r[i + 1] == t[i];
  }

  lemma AdoptedApart(s: seq<Node>, kids: seq<Node>, k: nat)
    requires k <= |kids| && Distinct(s + kids)
    ensures Distinct(Adopted(s, kids, k))
    ensures forall n :: n in Adopted(s, kids, k) ==> n in s || n in kids
    ensures forall j :: k <= j < |kids| ==> kids[j] !in Adopted(s, kids, k)
    ensures forall j :: k < j < |kids| ==> kids[j] != kids[k]
  {
    hide Adopted;
    var t, all := Adopted(s, kids, k), s + kids;
    forall i, j | 0 <= i < j < |t| ensures t[i] != t[j] {
      AdoptedAt(s, kids, k, i);
      AdoptedAt(s, kids, k, j);
    }
    forall i | 0 <= i < |t| ensures t[i] in s || t[i] in kids {
      AdoptedAt(s, kids, k, i);
    }
    forall i, j | 0 <= i < |t| && k <= j < |kids| ensures t[i] != kids[j] {
      AdoptedAt(s, kids, k, i);
      assert kids[j] == all[|s| + j];
    }
    forall j | k < j < |kids| ensures kids[j] != kids[k] {
      assert kids[j] == all[|s| + j] && kids[k] == all[|s| + k];
    }
  }

  // family_adopt: the children of deadParent, last one first, come before those of stepParent.
  method Adopt(stepParent: Node, deadParent: Node, ghost s: seq<Node>, ghost kids: seq<Node>)
    requires stepParent.child == At(s, 0) && Linked(stepParent, s, NO_HOLE)
    requires deadParent.child == At(kids, 0) && Linked(deadParent, kids, NO_HOLE)
    requires Distinct(s + kids) && stepParent != deadParent
    requires stepParent !in s && stepParent !in kids && deadParent !in kids
    modifies s, kids, stepParent, deadParent
    ensures Linked(stepParent, Reversed(kids) + s, NO_HOLE) && stepParent.child == At(Reversed(kids) + s, 0)
    ensures deadParent.child == null
    ensures Untouched(stepParent) && (deadParent !in s ==> Untouched(deadParent))
    ensures forall n :: (n in s || n in kids) && n != deadParent ==> n.child == old(n.child)
  {
    hide Linked, Distinct, Insert, Reversed, Rest;
    var tmp := deadParent.child;
    ghost var k := 0;
    Nexts(deadParent, kids);
    assert Adopted(s, kids, 0) == s by { assert Reversed(kids[..0]) == []; }
    assert Adopted(s, kids, |kids|) == Reversed(kids) + s by { assert kids[..|kids|] == kids; }
    hide Adopted;
    while tmp != null
      invariant 0 <= k <= |kids| && tmp == At(kids, k)
      invariant Linked(stepParent, Adopted(s, kids, k), NO_HOLE) && stepParent.child == At(Adopted(s, kids, k), 0)
      invariant Rest(kids, k)
      invariant Untouched(stepParent) && (deadParent !in s ==> Untouched(deadParent))
      invariant forall n :: n in s || n in kids ==> n.child == old(n.child)
      decreases |kids| - k
    {
      RestFirst(kids, k);
      var next := tmp.next;
      AdoptedStep(s, kids, k);
      AdoptedApart(s, kids, k);
      label Before:
      MoveToFront(stepParent, tmp, Adopted(s, kids, k));
      RestStands@Before(kids, k);
      tmp := next;
      k := k + 1;
    }
    deadParent.child := null;
  }

  twostate predicate Untouched(n: Node)
    reads n`parent, n`next, n`prev
  {
    n.parent == old(n.parent) && n.prev == old(n.prev) && n.next == old(n.next)
  }

  // The children still to be moved lead to each other.
  ghost predicate Rest(kids: seq<Node>, k: nat)
    reads kids`next
  {
    forall j :: k <= j < |kids| ==> kids[j].next == At(kids, j + 1)
  }

  lemma RestFirst(kids: seq<Node>, k: nat)
    requires Rest(kids, k) && k < |kids|
    ensures kids[k].next == At(kids, k + 1)
  {
  }

  twostate lemma RestStands(kids: seq<Node>, new k: nat)
    requires old(Rest(kids, k)) && forall j :: k < j < |kids| ==> kids[j].next == old(kids[j].next)
    ensures Rest(kids, k + 1)
  {
  }

  lemma Nexts(p: Node?, s: seq<Node>)
    requires Linked(p, s, NO_HOLE)
    ensures Rest(s, 0)
  {
    forall j | 0 <= j < |s| ensures s[j].next == At(s, j + 1) {
      assert Link(p, s, j, NO_HOLE);
    }
  }
}
