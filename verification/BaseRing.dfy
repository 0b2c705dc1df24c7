/** The sentinel rings of `base_ring.h`: circular, doubly linked, intrusive.

    A ring is a sentinel node together with the sequence of the member nodes in
    forward order.  The macros compute the sentinel's address from the list head;
    its payload is therefore whatever happens to lie there, and nothing below
    assumes anything about `val` of a sentinel. */
module BaseRing {
  import opened Sequences

  class Node<T> {
    var next: Node<T>
    var prev: Node<T>
    var val: T

    // BASE_RING_ELEM_INIT, and BASE_RING_INIT when the node serves as a sentinel.
    constructor (v: T)
      ensures next == this && prev == this && val == v
    {
      next, prev, val := this, this, v;
    }
  }

  // The i-th node of the ring; every index outside the members is the sentinel.
  function At<T>(s: Node<T>, ns: seq<Node<T>>, i: int): Node<T> {
    if 0 <= i < |ns| then ns[i] else s
  }

  ghost function Members<T>(ns: seq<Node<T>>): set<Node<T>> {
    set n | n in ns
  }

  // The values stored in the nodes `ns`, in order.
  ghost predicate Holds<T>(ns: seq<Node<T>>, q: seq<T>)
    reads ns
  {
    |ns| == |q| && forall i :: 0 <= i < |ns| ==> ns[i].val == q[i]
  }

  // Consecutive nodes point at each other; the two outer links are arbitrary.
  ghost predicate Linked<T>(c: seq<Node<T>>)
    reads c
  {
    forall i :: 0 <= i < |c| - 1 ==> c[i].next == c[i + 1] && c[i + 1].prev == c[i]
  }

  // `ns` are the members, in order, of the ring whose sentinel is `s`.
  ghost predicate IsRing<T>(s: Node<T>, ns: seq<Node<T>>)
    reads s, ns
  {
    s !in ns && Distinct(ns) && Linked([s] + ns + [s])
  }

  // `seg` is a detached chain.
  ghost predicate IsSegment<T>(seg: seq<Node<T>>)
    reads seg
  {
    |seg| > 0 && Distinct(seg) && Linked(seg)
  }

  lemma LinkedJoin<T>(a: seq<Node<T>>, b: seq<Node<T>>)
    requires |a| > 0 && |b| > 0 && Linked(a) && Linked(b)
    requires a[|a| - 1].next == b[0] && b[0].prev == a[|a| - 1]
    ensures Linked(a + b)
  {
  }

  lemma LinkedPart<T>(c: seq<Node<T>>, i: nat, j: nat)
    requires i <= j <= |c| && Linked(c)
    ensures Linked(c[i..j])
  {
  }

  // The links of a ring read off member by member.
  lemma RingLinks<T>(s: Node<T>, ns: seq<Node<T>>, k: int)
    requires IsRing(s, ns) && -1 <= k <= |ns|
    ensures k < |ns| ==> At(s, ns, k).next == At(s, ns, k + 1)
    ensures k >= 0 ==> At(s, ns, k).prev == At(s, ns, k - 1)
  {
    var c := [s] + ns + [s];
    assert k < |ns| ==> c[k + 1].next == c[k + 2];
    assert k >= 0 ==> c[k + 1].prev == c[k];
  }

  lemma RingDistinct<T>(s: Node<T>, ns: seq<Node<T>>)
    requires IsRing(s, ns)
    ensures s !in ns && Distinct(ns)
  {
  }

  lemma DistinctInsert<X>(xs: seq<X>, k: nat, ys: seq<X>)
    requires k <= |xs| && Distinct(xs) && Distinct(ys)
    requires forall y :: y in ys ==> y !in xs
    ensures Distinct(xs[..k] + ys + xs[k..])
  {
    var r := xs[..k] + ys + xs[k..];
    forall i, j | 0 <= i < j < |r|
      ensures r[i] != r[j]
    {
      assert k <= i < k + |ys| ==> r[i] in ys;
      assert k <= j < k + |ys| ==> r[j] in ys;
    }
  }

  // Cutting a ring in front of its k-th node leaves two chains.
  lemma RingCut<T>(s: Node<T>, ns: seq<Node<T>>, k: nat)
    requires IsRing(s, ns) && k <= |ns|
    ensures Linked([s] + ns[..k]) && Linked(ns[k..] + [s])
    ensures At(s, ns, k).prev == At(s, ns, k - 1)
  {
    RingLinks(s, ns, k);
    var c := [s] + ns + [s];
    LinkedPart(c, 0, k + 1);
    LinkedPart(c, k + 1, |c|);
    assert c[0..k + 1] == [s] + ns[..k] && c[k + 1..|c|] == ns[k..] + [s];
  }

  lemma CutDistinct<T>(s: Node<T>, ns: seq<Node<T>>, k: nat)
    requires s !in ns && Distinct(ns) && k <= |ns|
    ensures Distinct([s] + ns[..k]) && Distinct(ns[k..] + [s])
    ensures forall x :: x in ns[..k] ==> x !in ns[k..]
    ensures forall x :: x in [s] + ns[..k] || x in ns[k..] + [s] ==> x == s || x in ns
  {
    forall i, j | 0 <= i < j < |[s] + ns[..k]|
      ensures ([s] + ns[..k])[i] != ([s] + ns[..k])[j]
    {
      assert ([s] + ns[..k])[j] == ns[j - 1];
    }
  }

  // BASE_RING_SPLICE_BEFORE: hook the chain ep1..epN in front of `lep`.
  method SpliceBefore<T>(lep: Node<T>, ep1: Node<T>, epN: Node<T>,
                         ghost s: Node<T>, ghost ns: seq<Node<T>>, ghost k: nat, ghost seg: seq<Node<T>>)
    requires IsRing(s, ns) && IsSegment(seg)
    requires k <= |ns| && lep == At(s, ns, k)
    requires ep1 == seg[0] && epN == seg[|seg| - 1]
    requires forall n :: n in seg ==> n != s && n !in ns
    modifies lep`prev, lep.prev`next, ep1`prev, epN`next
    ensures IsRing(s, ns[..k] + seg + ns[k..])
  {
    ghost var a, b := [s] + ns[..k], ns[k..] + [s];
    RingCut(s, ns, k);
    CutDistinct(s, ns, k);
    assert lep.prev == a[|a| - 1] && lep == b[0] && lep in b && lep.prev in a && ep1 in seg && epN in seg;
    assert forall i :: 0 <= i < |seg| ==> seg[i] != lep && seg[i] != lep.prev;
    assert forall i :: 0 <= i < |a| ==> a[i] != ep1 && a[i] != epN && (i > 0 ==> a[i] != lep);
    assert forall i :: 0 <= i < |b| ==> b[i] != ep1 && b[i] != epN && (i < |b| - 1 ==> b[i] != lep.prev);
    epN.next := lep;
    ep1.prev := lep.prev;
    lep.prev.next := ep1;
    lep.prev := epN;
    assert Linked(a) && Linked(b) && Linked(seg);
    SpliceJoin(s, ns, k, seg);
  }

  lemma SpliceJoin<T>(s: Node<T>, ns: seq<Node<T>>, k: nat, seg: seq<Node<T>>)
    requires k <= |ns| && s !in ns && Distinct(ns) && IsSegment(seg)
    requires forall n :: n in seg ==> n != s && n !in ns
    requires Linked([s] + ns[..k]) && Linked(ns[k..] + [s])
    requires At(s, ns, k - 1).next == seg[0] && seg[0].prev == At(s, ns, k - 1)
    requires seg[|seg| - 1].next == At(s, ns, k) && At(s, ns, k).prev == seg[|seg| - 1]
    ensures IsRing(s, ns[..k] + seg + ns[k..])
  {
    var a, b := [s] + ns[..k], ns[k..] + [s];
    LinkedJoin(a, seg);
    LinkedJoin(a + seg, b);
    DistinctInsert(ns, k, seg);
    assert [s] + (ns[..k] + seg + ns[k..]) + [s] == (a + seg) + b;
  }

  // BASE_RING_UNSPLICE: the chain ns[i..j] leaves the ring, its own links untouched.
  method Unsplice<T>(ep1: Node<T>, epN: Node<T>,
                     ghost s: Node<T>, ghost ns: seq<Node<T>>, ghost i: nat, ghost j: nat)
    requires IsRing(s, ns)
    requires i < j <= |ns| && ep1 == ns[i] && epN == ns[j - 1]
    modifies ep1.prev`next, epN.next`prev
    ensures IsRing(s, ns[..i] + ns[j..])
    ensures IsSegment(ns[i..j])
    ensures ep1.prev == old(ep1.prev) && epN.next == old(epN.next)
  {
    RingCut(s, ns, i);
    RingCut(s, ns, j);
    RingLinks(s, ns, j - 1);
    RingDistinct(s, ns);
    CutDistinct(s, ns, i);
    CutDistinct(s, ns, j);
    StretchOf(s, ns, i, j);
    hide IsRing, At;
    ghost var a, b, seg := [s] + ns[..i], ns[j..] + [s], ns[i..j];
    assert ep1.prev == a[|a| - 1] && epN.next == b[0] && ep1 == seg[0] && epN == seg[|seg| - 1];
    assert forall k :: 0 <= k < |seg| ==> seg[k] != ep1.prev && seg[k] != epN.next;
    assert forall k :: 0 <= k < |a| ==> (k < |a| - 1 ==> a[k] != ep1.prev) && (k > 0 ==> a[k] != epN.next);
    assert forall k :: 0 <= k < |b| ==> (k < |b| - 1 ==> b[k] != ep1.prev) && (k > 0 ==> b[k] != epN.next);
    ep1.prev.next := epN.next;
    epN.next.prev := ep1.prev;
    assert Linked(a) && Linked(b) && Linked(seg);
    UnspliceJoin(s, ns, i, j);
  }

  // A stretch of a ring is a chain, its outer links leading to the rest of the ring.
  lemma StretchOf<T>(s: Node<T>, ns: seq<Node<T>>, i: nat, j: nat)
    requires IsRing(s, ns) && i < j <= |ns|
    ensures IsSegment(ns[i..j])
    ensures ns[i].prev == ([s] + ns[..i])[i] && ns[j - 1].next == (ns[j..] + [s])[0]
    ensures forall x :: x in ns[i..j] ==> x !in [s] + ns[..i] && x !in ns[j..] + [s]
    ensures forall x :: x in [s] + ns[..i] && x in ns[j..] + [s] ==> x == s
  {
    RingLinks(s, ns, i);
    RingLinks(s, ns, j - 1);
    var c := [s] + ns + [s];
    LinkedPart(c, i + 1, j + 1);
    assert c[i + 1..j + 1] == ns[i..j];
  }

  lemma UnspliceJoin<T>(s: Node<T>, ns: seq<Node<T>>, i: nat, j: nat)
    requires i < j <= |ns| && s !in ns && Distinct(ns)
    requires Linked([s] + ns[..i]) && Linked(ns[j..] + [s])
    requires At(s, ns, i - 1).next == At(s, ns, j) && At(s, ns, j).prev == At(s, ns, i - 1)
    ensures IsRing(s, ns[..i] + ns[j..])
  {
    var a, b := [s] + ns[..i], ns[j..] + [s];
    LinkedJoin(a, b);
    assert [s] + (ns[..i] + ns[j..]) + [s] == a + b;
  }

  // BASE_RING_INSERT_BEFORE.
  method InsertBefore<T>(lep: Node<T>, nep: Node<T>, ghost s: Node<T>, ghost ns: seq<Node<T>>, ghost k: nat)
    requires IsRing(s, ns)
    requires k <= |ns| && lep == At(s, ns, k)
    requires nep != s && nep !in ns
    modifies s`next, s`prev, Members(ns)`next, Members(ns)`prev, nep`prev, nep`next
    ensures IsRing(s, ns[..k] + [nep] + ns[k..])
  {
    RingLinks(s, ns, k);
    SpliceBefore(lep, nep, nep, s, ns, k, [nep]);
  }

  // BASE_RING_REMOVE: the removed node keeps its two links.
  method Remove<T>(ep: Node<T>, ghost s: Node<T>, ghost ns: seq<Node<T>>, ghost k: nat)
    requires IsRing(s, ns)
    requires k < |ns| && ep == ns[k]
    modifies s`next, s`prev, Members(ns)`next, Members(ns)`prev
    ensures IsRing(s, ns[..k] + ns[k + 1..])
    ensures ep.next == old(ep.next) && ep.prev == old(ep.prev)
  {
    RingLinks(s, ns, k);
    Unsplice(ep, ep, s, ns, k, k + 1);
  }

  // What is left when a stretch is cut out.
  lemma CutOut<T>(s: Node<T>, ns: seq<Node<T>>, i: nat, j: nat)
    requires s !in ns && Distinct(ns) && i < j <= |ns|
    ensures var r := ns[..i] + ns[j..];
            && At(s, r, i) == At(s, ns, j) && At(s, r, i - 1) == At(s, ns, i - 1)
            && forall n :: n in ns[i..j] ==> n != s && n !in r
  {
  }

  // Splicing the chain that has just left the ring back in front of its old
  // successor restores the ring, for every ring and every chain of it.
  method UnspliceThenSplice<T>(ep1: Node<T>, epN: Node<T>,
                               ghost s: Node<T>, ghost ns: seq<Node<T>>, ghost i: nat, ghost j: nat)
    requires IsRing(s, ns)
    requires i < j <= |ns| && ep1 == ns[i] && epN == ns[j - 1]
    modifies s, ns
    ensures IsRing(s, ns)
  {
    hide IsRing, IsSegment;
    RingLinks(s, ns, j - 1);
    RingLinks(s, ns, i);
    RingDistinct(s, ns);
    CutOut(s, ns, i, j);
    Unsplice(ep1, epN, s, ns, i, j);
    ghost var r := ns[..i] + ns[j..];
    RingLinks(s, r, i);
    SpliceBefore(epN.next, ep1, epN, s, r, i, ns[i..j]);
    assert r[..i] + ns[i..j] + r[i..] == ns;
  }
}
