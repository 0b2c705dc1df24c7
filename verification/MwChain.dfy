/** The allocation chain of `memwatch.c`: a doubly linked list ended by NULL on both
    sides, its integrity checker `mwIsHeapOK` and the non-emergency path of its
    repair routine `mwRelink`.  `safe` is the set of addresses for which
    `mwIsSafeAddr` answers yes. */
module MwChain {
  import opened Sequences

  class Block {
    var prev: Block?
    var next: Block?
    var size: nat
    var nml: bool      // flag & MW_NML: freed, kept as no-mans-land
    var check: bool    // whether the stored checksum is CHKVAL of the block

    constructor (p: Block?, n: Block?, s: nat)
      ensures prev == p && next == n && size == s && !nml && check
    {
      prev, next, size, nml, check := p, n, s, false, true;
    }
  }

  // The i-th block of the chain, NULL beyond either end.
  function At(xs: seq<Block>, i: int): Block? {
    if 0 <= i < |xs| then xs[i] else null
  }

  // `xs` is the chain from `head` to `tail`, correctly linked both ways.
  ghost predicate IsChain(xs: seq<Block>, head: Block?, tail: Block?)
    reads xs
  {
    && Distinct(xs)
    && head == At(xs, 0) && tail == At(xs, |xs| - 1)
    && forall i :: 0 <= i < |xs| ==> xs[i].next == At(xs, i + 1) && xs[i].prev == At(xs, i - 1)
  }

  ghost predicate AllIn(xs: seq<Block>, safe: set<Block>) {
    forall i :: 0 <= i < |xs| ==> xs[i] in safe
  }

  // The blocks visited by a forward walk that checked every back link: it started
  // at `head` and now stands at `cur`.
  ghost predicate Walked(vs: seq<Block>, head: Block?, cur: Block?, safe: set<Block>)
    reads vs, if cur != null then {cur} else {}
  {
    && Distinct(vs) && AllIn(vs, safe)
    && (vs == [] ==> cur == head)
    && (vs != [] ==> vs[0] == head && vs[0].prev == null && vs[|vs| - 1].next == cur)
    && (forall i :: 0 <= i < |vs| - 1 ==> vs[i].next == vs[i + 1] && vs[i + 1].prev == vs[i])
    && (vs != [] && cur != null ==> cur.prev == vs[|vs| - 1] && cur in safe)
  }

  // Such a walk never comes back to a block it has seen.
  lemma WalkIsFresh(vs: seq<Block>, head: Block?, cur: Block, safe: set<Block>)
    requires Walked(vs, head, cur, safe)
    ensures cur !in vs
  {
    forall i | 0 <= i < |vs|
      ensures vs[i] != cur
    {
      assert if i == 0 then vs[i].prev == null else vs[i].prev == vs[i - 1] != vs[|vs| - 1];
    }
  }

  // A sequence of different safe blocks is no longer than there are safe addresses.
  lemma {:induction false} DistinctFits(vs: seq<Block>, safe: set<Block>)
    requires Distinct(vs) && AllIn(vs, safe)
    ensures |vs| <= |safe|
  {
    if vs != [] {
      var n := |vs| - 1;
      DistinctFits(vs[..n], safe - {vs[n]});
    }
  }

  // Any chain from the same head begins with the blocks a walk has visited.
  lemma {:induction false} ChainExtendsWalk(xs: seq<Block>, head: Block?, tail: Block?,
                                            vs: seq<Block>, cur: Block?, safe: set<Block>, n: nat)
    requires IsChain(xs, head, tail) && Walked(vs, head, cur, safe) && n <= |vs|
    ensures n <= |xs| && forall i :: 0 <= i < n ==> xs[i] == vs[i]
    ensures n == |vs| ==> cur == At(xs, n)
  {
    hide Distinct, AllIn;
    if n > 0 {
      ChainExtendsWalk(xs, head, tail, vs, cur, safe, n - 1);
      assert vs[n - 1] == if n == 1 then head else vs[n - 2].next;
      assert At(xs, n - 1) == if n == 1 then head else xs[n - 2].next;
      assert n == |vs| ==> vs[n - 1].next == cur;
    }
  }

  ghost predicate HasChain(head: Block?, tail: Block?, safe: set<Block>, xs: seq<Block>, includes: Block?)
    reads xs
  {
    IsChain(xs, head, tail) && AllIn(xs, safe) && (includes != null ==> includes in xs)
  }

  // Every test of the checker holds of every block of a chain.
  lemma ChainPasses(head: Block?, tail: Block?, safe: set<Block>, xs: seq<Block>, k: nat)
    requires IsChain(xs, head, tail) && AllIn(xs, safe) && k < |xs|
    ensures var mw := xs[k];
            && mw in safe
            && (mw.prev != null ==> mw.prev in safe && mw != head && mw.prev.next == mw)
            && if mw.next != null then mw.next in safe && mw != tail && mw.next.prev == mw else mw == tail
  {
    assert k > 0 ==> xs[k - 1].next == xs[k];
    assert k + 1 < |xs| ==> xs[k + 1].prev == xs[k];
  }

  // A block that fails one of them is therefore on no chain from this head.
  lemma Refuted(head: Block?, tail: Block?, safe: set<Block>, includes: Block?, vs: seq<Block>, mw: Block)
    requires Walked(vs, head, mw, safe)
    requires || mw !in safe
             || (mw.prev != null && (mw.prev !in safe || mw == head || mw.prev.next != mw))
             || (if mw.next != null then mw.next !in safe || mw == tail || mw.next.prev != mw else mw != tail)
    ensures !exists xs: seq<Block> :: HasChain(head, tail, safe, xs, includes)
  {
    forall xs: seq<Block>
      ensures !HasChain(head, tail, safe, xs, includes)
    {
      if HasChain(head, tail, safe, xs, includes) {
        ChainExtendsWalk(xs, head, tail, vs, mw, safe, |vs|);
        ChainPasses(head, tail, safe, xs, |vs|);
      }
    }
  }

  // A walk that has reached the end is the only candidate for the chain.
  lemma WalkIsTheChain(head: Block?, tail: Block?, safe: set<Block>, vs: seq<Block>)
    requires Walked(vs, head, null, safe)
    ensures forall xs: seq<Block> :: IsChain(xs, head, tail) ==> xs == vs
  {
    forall xs: seq<Block> | IsChain(xs, head, tail)
      ensures xs == vs
    {
      ChainExtendsWalk(xs, head, tail, vs, null, safe, |vs|);
    }
  }

  // mwIsHeapOK on an arbitrary pointer graph.  It terminates whatever the links are;
  // it dereferences safe addresses only; and with a head it answers yes exactly when
  // the blocks form an intact chain of safe addresses (holding `includes`, if given).
  method IsHeapOK(head: Block?, tail: Block?, safe: set<Block>, includes: Block?) returns (ok: bool)
    ensures head == null ==> (ok <==> includes == null)
    ensures head != null ==> (ok <==> exists xs: seq<Block> :: HasChain(head, tail, safe, xs, includes))
  {
    var found := false;
    var mw := head;
    ghost var vs: seq<Block> := [];
    while mw != null
      invariant Walked(vs, head, mw, safe)
      invariant mw != null ==> tail !in vs
      invariant mw == null && head != null ==> vs != [] && tail == vs[|vs| - 1]
      invariant found <==> includes != null && includes in vs
      decreases |safe| - |vs|
    {
      WalkIsFresh(vs, head, mw, safe);
      if includes == mw {
        found := true;
      }
      if mw !in safe {
        Refuted(head, tail, safe, includes, vs, mw);
        return false;
      }
      DistinctFits(vs + [mw], safe);
      if mw.prev != null {
        if mw.prev !in safe {
          Refuted(head, tail, safe, includes, vs, mw);
          return false;
        }
        if mw == head || mw.prev.next != mw {
          Refuted(head, tail, safe, includes, vs, mw);
          return false;
        }
      }
      if mw.next != null {
        if mw.next !in safe {
          Refuted(head, tail, safe, includes, vs, mw);
          return false;
        }
        if mw == tail || mw.next.prev != mw {
          Refuted(head, tail, safe, includes, vs, mw);
          return false;
        }
      } else if mw != tail {
        Refuted(head, tail, safe, includes, vs, mw);
        return false;
      }
      vs := vs + [mw];
      mw := mw.next;
    }
    WalkIsTheChain(head, tail, safe, vs);
    if includes != null && !found {
      return false;
    }
    assert head != null ==> HasChain(head, tail, safe, vs, includes);
    return true;
  }

  // ---------- repair ----------

  // The chain `xs` with at most one damaged block: `mw`, whose own two links may be
  // anything; every other link, head and tail are right.
  ghost predicate DamagedAt(xs: seq<Block>, mw: Block, head: Block?, tail: Block?, safe: set<Block>)
    reads xs
  {
    && xs != [] && Distinct(xs) && AllIn(xs, safe)
    && head == xs[0] && tail == xs[|xs| - 1]
    && forall i :: 0 <= i < |xs| && xs[i] != mw ==>
         xs[i].next == At(xs, i + 1) && xs[i].prev == At(xs, i - 1)
  }

  datatype Search = Found(b: Block) | Missing | Fragmented

  // ---------- when a search ends ----------

  function Ahead(b: Block, forward: bool): Block?
    reads b
  {
    if forward then b.next else b.prev
  }

  // Where a search for the neighbour of mw goes on from `cur`: nowhere when it has found
  // mw, reached the end or seen a link that is not returned.
  function Onward(mw: Block, safe: set<Block>, cur: Block, forward: bool): (r: Block?)
    requires cur in safe && cur != mw
    reads safe - {mw}
    ensures r != null ==> r in safe && r != mw && Ahead(cur, forward) == r && Ahead(r, !forward) == cur
  {
    var b := Ahead(cur, forward);
    if b == null || b == mw || b !in safe || Ahead(b, !forward) != cur then null else b
  }

  // The n-th block of the search; NULL when it has ended before.
  function Visited(mw: Block, safe: set<Block>, start: Block, forward: bool, n: nat): (r: Block?)
    requires start in safe && start != mw
    reads safe - {mw}
    ensures r != null ==> r in safe && r != mw
  {
    if n == 0 then start
    else
      var b := Visited(mw, safe, start, forward, n - 1);
      if b == null then null else Onward(mw, safe, b, forward)
  }

  // The search comes back to where it started.
  ghost predicate Circles(mw: Block, safe: set<Block>, start: Block, forward: bool)
    requires start in safe && start != mw
    reads safe - {mw}
  {
    exists n: nat :: n > 0 && Visited(mw, safe, start, forward, n) == start
  }

  // A search that meets a block again has come back to its start.
  lemma {:induction false} NoReturn(mw: Block, safe: set<Block>, start: Block, forward: bool, i: nat, n: nat)
    requires start in safe && start != mw && i < n
    ensures Visited(mw, safe, start, forward, i) == Visited(mw, safe, start, forward, n) != null ==>
              Circles(mw, safe, start, forward)
    decreases i
  {
    if i > 0 {
      NoReturn(mw, safe, start, forward, i - 1, n - 1);
    }
  }

  lemma {:induction false} VisitedBefore(mw: Block, safe: set<Block>, start: Block, forward: bool, i: nat, n: nat)
    requires start in safe && start != mw && i <= n && Visited(mw, safe, start, forward, n) != null
    ensures Visited(mw, safe, start, forward, i) != null
    decreases n
  {
    if i < n {
      VisitedBefore(mw, safe, start, forward, i, n - 1);
    }
  }

  // A search that does not come back visits no more blocks than there are safe addresses.
  lemma VisitsFit(mw: Block, safe: set<Block>, start: Block, forward: bool, n: nat)
    requires start in safe && start != mw && !Circles(mw, safe, start, forward)
    ensures Visited(mw, safe, start, forward, n) != null ==> n < |safe|
  {
    if Visited(mw, safe, start, forward, n) != null {
      var vs: seq<Block> := [];
      for i := 0 to n + 1
        invariant |vs| == i && forall k :: 0 <= k < i ==> vs[k] == Visited(mw, safe, start, forward, k)
        invariant Distinct(vs) && AllIn(vs, safe)
      {
        VisitedBefore(mw, safe, start, forward, i, n);
        var b := Visited(mw, safe, start, forward, i);
        forall k | 0 <= k < i
          ensures vs[k] != b
        {
          NoReturn(mw, safe, start, forward, k, i);
        }
        vs := vs + [b];
      }
      DistinctFits(vs, safe);
    }
  }

  lemma {:induction false} Periodic(mw: Block, safe: set<Block>, start: Block, forward: bool, p: nat, k: nat)
    requires start in safe && start != mw && Visited(mw, safe, start, forward, p) == start
    ensures Visited(mw, safe, start, forward, p + k) == Visited(mw, safe, start, forward, k)
  {
    if k > 0 {
      Periodic(mw, safe, start, forward, p, k - 1);
    }
  }

  lemma {:induction false} NeverEnds(mw: Block, safe: set<Block>, start: Block, forward: bool, p: nat, n: nat)
    requires start in safe && start != mw && p > 0 && Visited(mw, safe, start, forward, p) == start
    ensures Visited(mw, safe, start, forward, n) != null
    decreases n
  {
    if n < p {
      VisitedBefore(mw, safe, start, forward, n, p);
    } else {
      Periodic(mw, safe, start, forward, p, n - p);
      NeverEnds(mw, safe, start, forward, p, n - p);
    }
  }

  // On any pointer graph, a search ends if and only if it does not come back to the block
  // it started from.
  lemma SearchEndsIff(mw: Block, safe: set<Block>, start: Block, forward: bool)
    requires start in safe && start != mw
    ensures (exists n: nat :: Visited(mw, safe, start, forward, n) == null) <==> !Circles(mw, safe, start, forward)
  {
    if Circles(mw, safe, start, forward) {
      var p: nat :| p > 0 && Visited(mw, safe, start, forward, p) == start;
      forall n: nat
        ensures Visited(mw, safe, start, forward, n) != null
      {
        NeverEnds(mw, safe, start, forward, p, n);
      }
    } else {
      VisitsFit(mw, safe, start, forward, |safe|);
      assert Visited(mw, safe, start, forward, |safe|) == null;
    }
  }

  // An end without a link outwards is never come back to.
  lemma EndStops(mw: Block, safe: set<Block>, start: Block, forward: bool)
    requires start in safe && start != mw && Ahead(start, !forward) == null
    ensures !Circles(mw, safe, start, forward)
  {
    forall n: nat | n > 0
      ensures Visited(mw, safe, start, forward, n) != start
    {
      var b := Visited(mw, safe, start, forward, n - 1);
      assert b != null ==> Visited(mw, safe, start, forward, n) == Onward(mw, safe, b, forward);
    }
  }

  // Two blocks that are each other's neighbours on both sides: a search for a third one
  // never ends.
  lemma TwoInACircle(mw: Block, safe: set<Block>, a: Block, b: Block)
    requires a in safe && b in safe && a != b && mw != a && mw != b
    requires a.next == b && b.prev == a && b.next == a && a.prev == b
    ensures Circles(mw, safe, a, true) && Circles(mw, safe, a, false)
    ensures forall n: nat :: Visited(mw, safe, a, true, n) != null
  {
    VisitNext(mw, safe, a, true, 0);
    VisitNext(mw, safe, a, true, 1);
    VisitNext(mw, safe, a, false, 0);
    VisitNext(mw, safe, a, false, 1);
    SearchEndsIff(mw, safe, a, true);
  }

  // What a search sees at an undamaged block.
  lemma DamagedStep(xs: seq<Block>, mw: Block, head: Block?, tail: Block?, safe: set<Block>, j: nat)
    requires DamagedAt(xs, mw, head, tail, safe) && j < |xs| && xs[j] != mw
    ensures xs[j].prev == At(xs, j - 1) && xs[j].next == At(xs, j + 1)
    ensures j > 0 && xs[j - 1] != mw ==> xs[j - 1] in safe && xs[j - 1].next == xs[j]
    ensures j > 0 && xs[j - 1] == mw ==> forall k :: 0 <= k < |xs| && xs[k] == mw ==> k == j - 1
    ensures j + 1 < |xs| && xs[j + 1] != mw ==> xs[j + 1] in safe && xs[j + 1].prev == xs[j]
    ensures j + 1 < |xs| && xs[j + 1] == mw ==> forall k :: 0 <= k < |xs| && xs[k] == mw ==> k == j + 1
  {
  }

  // The ends of a chain that may be damaged.
  lemma DamagedStart(xs: seq<Block>, mw: Block, head: Block?, tail: Block?, safe: set<Block>)
    requires DamagedAt(xs, mw, head, tail, safe)
    ensures xs != [] && head == xs[0] && tail == xs[|xs| - 1]
  {
  }

  lemma VisitStart(mw: Block, safe: set<Block>, start: Block, forward: bool)
    requires start in safe && start != mw
    ensures Visited(mw, safe, start, forward, 0) == start
  {
  }

  lemma VisitNext(mw: Block, safe: set<Block>, start: Block, forward: bool, n: nat)
    requires start in safe && start != mw && Visited(mw, safe, start, forward, n) != null
    ensures Visited(mw, safe, start, forward, n + 1) == Onward(mw, safe, Visited(mw, safe, start, forward, n), forward)
  {
  }

  // The search from the head for the block whose `next` is mw, where it ends.
  method SearchForward(mw: Block, head: Block, safe: set<Block>, ghost xs: seq<Block>, ghost tail: Block?) returns (r: Search)
    requires head != mw && head in safe && !Circles(mw, safe, head, true)
    ensures r.Found? ==> r.b in safe && r.b.next == mw
    ensures DamagedAt(xs, mw, head, tail, safe) ==>
              && !r.Fragmented?
              && (r.Missing? ==> mw !in xs)
              && (r.Found? ==> mw in xs && forall k :: 0 <= k < |xs| && xs[k] == mw ==> r.b == At(xs, k - 1))
  {
    hide DamagedAt, Circles, Visited;
    var mw1: Block? := head;
    ghost var n: nat := 0;
    ghost var damaged := DamagedAt(xs, mw, head, tail, safe);
    if damaged {
      DamagedStart(xs, mw, head, tail, safe);
    }
    VisitStart(mw, safe, head, true);
    while mw1 != null
      invariant mw1 == Visited(mw, safe, head, true, n) && mw1 != mw && (mw1 != null ==> mw1 in safe)
      invariant damaged ==> n <= |xs| && mw1 == At(xs, n)
      invariant damaged ==> forall i :: 0 <= i <= n && i < |xs| ==> xs[i] != mw
      decreases |safe| - n
    {
      VisitsFit(mw, safe, head, true, n);
      VisitNext(mw, safe, head, true, n);
      if damaged {
        DamagedStep(xs, mw, head, tail, safe, n);
      }
      if mw1.next == mw {
        return Found(mw1);
      }
      if mw1.next != null && (mw1.next !in safe || mw1.next.prev != mw1) {
        return Fragmented;
      }
      n := n + 1;
      mw1 := mw1.next;
    }
    return Missing;
  }

  // The search from the tail for the block whose `prev` is mw, where it ends.
  method SearchBackward(mw: Block, tail: Block, safe: set<Block>, ghost xs: seq<Block>, ghost head: Block?) returns (r: Search)
    requires tail != mw && tail in safe && !Circles(mw, safe, tail, false)
    ensures r.Found? ==> r.b in safe && r.b.prev == mw
    ensures DamagedAt(xs, mw, head, tail, safe) ==>
              && !r.Fragmented?
              && (r.Missing? ==> mw !in xs)
              && (r.Found? ==> mw in xs && forall k :: 0 <= k < |xs| && xs[k] == mw ==> r.b == At(xs, k + 1))
  {
    hide DamagedAt, Circles, Visited;
    var mw1: Block? := tail;
    ghost var n: nat := 0;
    ghost var damaged := DamagedAt(xs, mw, head, tail, safe);
    if damaged {
      DamagedStart(xs, mw, head, tail, safe);
    }
    VisitStart(mw, safe, tail, false);
    while mw1 != null
      invariant mw1 == Visited(mw, safe, tail, false, n) && mw1 != mw && (mw1 != null ==> mw1 in safe)
      invariant damaged ==> n <= |xs| && mw1 == At(xs, |xs| - 1 - n)
      invariant damaged ==> forall i :: |xs| - 1 - n <= i < |xs| && 0 <= i ==> xs[i] != mw
      decreases |safe| - n
    {
      VisitsFit(mw, safe, tail, false, n);
      VisitNext(mw, safe, tail, false, n);
      if damaged {
        DamagedStep(xs, mw, head, tail, safe, |xs| - 1 - n);
      }
      if mw1.prev == mw {
        return Found(mw1);
      }
      if mw1.prev != null && (mw1.prev !in safe || mw1.prev.next != mw1) {
        return Fragmented;
      }
      n := n + 1;
      mw1 := mw1.prev;
    }
    return Missing;
  }

  function Sum(sizes: seq<nat>): nat {
    if sizes == [] then 0 else Sum(sizes[..|sizes| - 1]) + sizes[|sizes| - 1]
  }

  lemma NothingSummed(sizes: seq<nat>)
    ensures Sum(sizes[..0]) == 0
  {
  }

  lemma SumTake(sizes: seq<nat>, k: nat)
    requires k < |sizes|
    ensures Sum(sizes[..k + 1]) == Sum(sizes[..k]) + sizes[k]
  {
    assert sizes[..k + 1][..k] == sizes[..k];
  }

  ghost function Sizes(xs: seq<Block>): (r: seq<nat>)
    reads xs
    ensures |r| == |xs| && forall i :: 0 <= i < |xs| ==> r[i] == xs[i].size
  {
    seq(|xs|, i requires 0 <= i < |xs| reads xs => xs[i].size)
  }

  lemma ChainStart(xs: seq<Block>, head: Block?, tail: Block?)
    requires IsChain(xs, head, tail)
    ensures head == At(xs, 0)
  {
  }

  lemma ChainLink(xs: seq<Block>, head: Block?, tail: Block?, k: nat)
    requires IsChain(xs, head, tail) && k < |xs|
    ensures xs[k].next == At(xs, k + 1)
  {
  }

  // The final count of mwRelink over a verified chain.
  method CountChain(head: Block?, tail: Block?, ghost xs: seq<Block>) returns (count: nat, size: nat)
    requires IsChain(xs, head, tail)
    ensures count == |xs| && size == Sum(Sizes(xs))
  {
    hide IsChain, Sum, Sizes;
    count, size := 0, 0;
    var mw1 := head;
    ghost var sizes := Sizes(xs);
    ChainStart(xs, head, tail);
    NothingSummed(sizes);
    while mw1 != null
      invariant count <= |xs| && mw1 == At(xs, count)
      invariant size == Sum(sizes[..count])
      decreases |xs| - count
    {
      SumTake(sizes, count);
      ChainLink(xs, head, tail, count);
      count := count + 1;
      size := size + mw1.size;
      mw1 := mw1.next;
    }
    assert sizes[..count] == sizes;
  }

  datatype Fix = Fixed | NotFound | Broken

  // "Repair from head".
  method FixPrev(mw: Block, head: Block?, safe: set<Block>, ghost xs: seq<Block>, ghost tail: Block?) returns (r: Fix)
    requires head != null && head != mw && head in safe ==> !Circles(mw, safe, head, true)
    modifies mw`prev
    ensures head == null ==> r == Broken
    ensures old(DamagedAt(xs, mw, head, tail, safe)) ==> DamagedAt(xs, mw, head, tail, safe)
    ensures old(DamagedAt(xs, mw, head, tail, safe)) && mw !in xs ==> r == NotFound && mw.prev == old(mw.prev)
    ensures old(DamagedAt(xs, mw, head, tail, safe)) ==>
              forall k :: 0 <= k < |xs| && xs[k] == mw ==> r == Fixed && mw.prev == At(xs, k - 1)
  {
    if head != mw {
      if head == null || head !in safe {
        return Broken;
      }
      var f := SearchForward(mw, head, safe, xs, tail);
      match f {
        case Found(b) => mw.prev := b; return Fixed;
        case Fragmented => return Broken;
        case Missing => return NotFound;
      }
    }
    if mw.prev != null {
      mw.prev := null;
    }
    return Fixed;
  }

  // "Repair from tail".
  method FixNext(mw: Block, tail: Block?, safe: set<Block>, ghost xs: seq<Block>, ghost head: Block?) returns (r: Fix)
    requires tail != null && tail != mw && tail in safe ==> !Circles(mw, safe, tail, false)
    modifies mw`next
    ensures old(DamagedAt(xs, mw, head, tail, safe)) ==> DamagedAt(xs, mw, head, tail, safe)
    ensures old(DamagedAt(xs, mw, head, tail, safe)) && mw !in xs ==> r == NotFound && mw.next == old(mw.next)
    ensures old(DamagedAt(xs, mw, head, tail, safe)) ==>
              forall k :: 0 <= k < |xs| && xs[k] == mw ==> r == Fixed && mw.next == At(xs, k + 1)
  {
    if tail != mw {
      if tail == null || tail !in safe {
        return Broken;
      }
      var f := SearchBackward(mw, tail, safe, xs, head);
      match f {
        case Found(b) => mw.next := b; return Fixed;
        case Fragmented => return Broken;
        case Missing => return NotFound;
      }
    }
    if mw.next != null {
      mw.next := null;
    }
    return Fixed;
  }

  // The verification in mwRelink: the chain found, which is `xs` if that is intact.
  method Verified(head: Block, tail: Block?, safe: set<Block>, ghost xs: seq<Block>) returns (ok: bool, ghost ys: seq<Block>)
    ensures ok ==> IsChain(ys, head, tail)
    ensures IsChain(xs, head, tail) && AllIn(xs, safe) ==> ok && ys == xs
  {
    hide IsChain, AllIn, Distinct;
    ys := [];
    ok := IsHeapOK(head, tail, safe, null);
    if ok {
      ys :| HasChain(head, tail, safe, ys, null);
      ChainIsUnique(head, tail, xs, ys);
    } else {
      assert !HasChain(head, tail, safe, xs, null);
    }
  }

  // The part of mwRelink from `verifyok` on.
  method VerifyAndCount(mw: Block, head: Block, tail: Block?, safe: set<Block>, numCur: int, statCur: int,
                        ghost xs: seq<Block>) returns (out: Outcome)
    modifies mw`size, mw`check
    ensures old(IsChain(xs, head, tail)) && AllIn(xs, safe) ==> IsChain(xs, head, tail) && out == Done(|xs| == numCur)
    ensures mw.check == (old(mw.check) && mw.size == old(mw.size))
    ensures old(IsChain(xs, head, tail)) && AllIn(xs, safe) ==>
              mw.size == if |xs| == numCur && old(Sum(Sizes(xs))) != statCur then 0 else old(mw.size)
  {
    hide IsChain, AllIn, Sum, Sizes;
    var ok, ys := Verified(head, tail, safe, xs);
    if !ok {
      return Abort;
    }
    var count, size := CountChain(head, tail, ys);
    if count == numCur {
      if size != statCur {
        LoseSize(mw, xs, head, tail);
      }
      return Done(true);
    }
    return Done(false);
  }

  // The size is lost, and with it the checksum, which covers it.
  method LoseSize(mw: Block, ghost xs: seq<Block>, ghost head: Block?, ghost tail: Block?)
    modifies mw`size, mw`check
    ensures mw.size == 0 && mw.check == (old(mw.check) && old(mw.size) == 0)
    ensures old(IsChain(xs, head, tail)) ==> IsChain(xs, head, tail)
  {
    mw.check := mw.check && mw.size == 0;
    mw.size := 0;
  }

  lemma {:induction false} ChainPrefix(head: Block?, tail: Block?, xs: seq<Block>, ys: seq<Block>, n: nat)
    requires IsChain(xs, head, tail) && IsChain(ys, head, tail) && n <= |xs|
    ensures n <= |ys| && forall i :: 0 <= i < n ==> xs[i] == ys[i]
  {
    if n > 0 {
      ChainPrefix(head, tail, xs, ys, n - 1);
      assert At(xs, n - 1) == if n == 1 then head else xs[n - 2].next;
      assert At(ys, n - 1) == if n == 1 then head else ys[n - 2].next;
    }
  }

  // At most one sequence of blocks is the chain between two ends.
  lemma ChainIsUnique(head: Block?, tail: Block?, xs: seq<Block>, ys: seq<Block>)
    ensures IsChain(xs, head, tail) && IsChain(ys, head, tail) ==> xs == ys
  {
    if IsChain(xs, head, tail) && IsChain(ys, head, tail) {
      ChainPrefix(head, tail, xs, ys, |xs|);
      ChainPrefix(head, tail, ys, xs, |ys|);
    }
  }

  // Emergency: the code goes on to its emergency repairs, which are not modelled.
  datatype Outcome = Emergency | Abort | Done(ok: bool)

  // mwRelink.  The preconditions are the ones under which its two searches end
  // (SearchEndsIff).
  //
  // If `xs` is the chain and only the two links of `mw` are damaged, the chain comes
  // back exactly; if `mw` is no block of the intact chain, no link changes.  Either
  // way the answer is yes exactly when the chain is as long as the live count.
  method Relink(mw: Block?, head: Block?, tail: Block?, safe: set<Block>, numCur: int, statCur: int,
                ghost xs: seq<Block>) returns (out: Outcome)
    requires mw != null && head != null && head != mw && head in safe ==> !Circles(mw, safe, head, true)
    requires mw != null && tail != null && tail != mw && tail in safe ==> !Circles(mw, safe, tail, false)
    modifies (if mw == null then {} else {mw})`prev, (if mw == null then {} else {mw})`next
    modifies (if mw == null then {} else {mw})`size, (if mw == null then {} else {mw})`check
    ensures mw == null || mw !in safe ==> out == Emergency
    ensures mw != null && mw in safe && old(DamagedAt(xs, mw, head, tail, safe)) && mw in xs ==>
              mw.check == (mw.size == old(mw.size))
    ensures mw != null && mw in safe && old(DamagedAt(xs, mw, head, tail, safe)) ==>
              IsChain(xs, head, tail) && out == Done(|xs| == numCur)
    ensures mw != null && mw in safe && old(DamagedAt(xs, mw, head, tail, safe)) && mw !in xs ==>
              mw.next == old(mw.next) && mw.prev == old(mw.prev) && mw.check == (old(mw.check) && mw.size == old(mw.size))
    ensures mw != null && mw in safe && old(DamagedAt(xs, mw, head, tail, safe)) ==>
              mw.size == if |xs| == numCur && old(Sum(Sizes(xs))) != statCur then 0 else old(mw.size)
  {
    if mw == null || mw !in safe {
      return Emergency;
    }
    hide DamagedAt, IsChain, AllIn, Circles, Sum;
    ghost var sizes := Sizes(xs);
    var ok := FixLinks(mw, head, tail, safe, xs);
    if !ok {
      return Emergency;
    }
    assert Sizes(xs) == sizes;
    out := VerifyAndCount(mw, head, tail, safe, numCur, statCur, xs);
  }

  // The part of mwRelink before `verifyok`; false when it goes on to its emergency repairs.
  method FixLinks(mw: Block, head: Block?, tail: Block?, safe: set<Block>, ghost xs: seq<Block>) returns (ok: bool)
    requires head != null && head != mw && head in safe ==> !Circles(mw, safe, head, true)
    requires tail != null && tail != mw && tail in safe ==> !Circles(mw, safe, tail, false)
    modifies mw`prev, mw`next, mw`check
    ensures ok ==> head != null
    ensures old(DamagedAt(xs, mw, head, tail, safe)) ==> ok && IsChain(xs, head, tail) && AllIn(xs, safe) && (mw in xs ==> mw.check)
    ensures old(DamagedAt(xs, mw, head, tail, safe)) && mw !in xs ==>
              mw.next == old(mw.next) && mw.prev == old(mw.prev) && mw.check == old(mw.check)
  {
    hide Circles, DamagedAt, IsChain, AllIn;
    ghost var damaged := DamagedAt(xs, mw, head, tail, safe);
    var p := FixPrev(mw, head, safe, xs, tail);
    if p.Broken? {
      return false;
    }
    var n := FixNext(mw, tail, safe, xs, head);
    if n.Broken? {
      return false;
    }
    if damaged {
      LinksRepaired(xs, mw, head, tail, safe);
    }
    if p.Fixed? || n.Fixed? {
      Reseal(mw, xs, head, tail);
    }
    return true;
  }

  lemma LinksRepaired(xs: seq<Block>, mw: Block, head: Block?, tail: Block?, safe: set<Block>)
    requires DamagedAt(xs, mw, head, tail, safe)
    requires forall k :: 0 <= k < |xs| && xs[k] == mw ==> mw.prev == At(xs, k - 1) && mw.next == At(xs, k + 1)
    ensures IsChain(xs, head, tail) && AllIn(xs, safe)
  {
  }

  // mw->check = CHKVAL(mw).
  method Reseal(mw: Block, ghost xs: seq<Block>, ghost head: Block?, ghost tail: Block?)
    modifies mw`check
    ensures mw.check && (old(IsChain(xs, head, tail)) ==> IsChain(xs, head, tail))
  {
    mw.check := true;
  }
}
