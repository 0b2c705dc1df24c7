/** Accounting of `memwatch.c` over every run of malloc, realloc, free and free-up:
    the chain stays a well-formed doubly linked list, the live counters are the
    count and byte sum of its blocks that are not no-mans-land, and a byte limit
    that is met stays met. */
module MwHeap {
  import opened Sequences
  import opened MwChain

  // The parts of a block the accounting is about.
  datatype Info = Info(size: nat, nml: bool)

  function LiveCount(v: seq<Info>): nat {
    if v == [] then 0 else (if v[0].nml then 0 else 1) + LiveCount(v[1..])
  }

  function LiveBytes(v: seq<Info>): nat {
    if v == [] then 0 else (if v[0].nml then 0 else v[0].size) + LiveBytes(v[1..])
  }

  // The live blocks, in chain order.
  function Live(v: seq<Info>): seq<Info> {
    if v == [] then [] else (if v[0].nml then [] else [v[0]]) + Live(v[1..])
  }

  lemma {:induction false} SplitAt(v: seq<Info>, k: nat)
    requires k <= |v|
    ensures LiveCount(v) == LiveCount(v[..k]) + LiveCount(v[k..])
    ensures LiveBytes(v) == LiveBytes(v[..k]) + LiveBytes(v[k..])
    ensures Live(v) == Live(v[..k]) + Live(v[k..])
  {
    if k == 0 {
      assert v[..0] == [] && v[0..] == v;
      NoLive();
    } else {
      hide LiveCount, LiveBytes, Live;
      SplitAt(v[1..], k - 1);
      LiveStep(v);
      LiveStep(v[..k]);
      assert v[..k][0] == v[0] && v[..k][1..] == v[1..][..k - 1] && v[k..] == v[1..][k - 1..];
      Associates(if v[0].nml then [] else [v[0]], Live(v[1..][..k - 1]), Live(v[k..]));
    }
  }

  lemma Associates(a: seq<Info>, b: seq<Info>, c: seq<Info>)
    ensures a + (b + c) == (a + b) + c
  {
  }

  lemma LiveStep(v: seq<Info>)
    requires v != []
    ensures LiveCount(v) == (if v[0].nml then 0 else 1) + LiveCount(v[1..])
    ensures LiveBytes(v) == (if v[0].nml then 0 else v[0].size) + LiveBytes(v[1..])
    ensures Live(v) == (if v[0].nml then [] else [v[0]]) + Live(v[1..])
  {
  }

  // One block in the middle of the chain.
  lemma SplitBlock(v: seq<Info>, k: nat)
    requires k < |v|
    ensures LiveCount(v) == LiveCount(v[..k]) + (if v[k].nml then 0 else 1) + LiveCount(v[k + 1..])
    ensures LiveBytes(v) == LiveBytes(v[..k]) + (if v[k].nml then 0 else v[k].size) + LiveBytes(v[k + 1..])
    ensures Live(v) == Live(v[..k]) + ((if v[k].nml then [] else [v[k]]) + Live(v[k + 1..]))
  {
    hide LiveCount, LiveBytes, Live;
    SplitAt(v, k);
    LiveStep(v[k..]);
    assert v[k..][1..] == v[k + 1..] && v[k..][0] == v[k];
  }

  lemma LiveHas(v: seq<Info>, k: nat)
    requires k < |v| && !v[k].nml
    ensures v[k] in Live(v)
  {
    SplitBlock(v, k);
  }

  // Taking block k out of the chain.
  lemma DropBlock(v: seq<Info>, k: nat)
    requires k < |v|
    ensures var r := v[..k] + v[k + 1..];
            && LiveCount(r) == LiveCount(v) - (if v[k].nml then 0 else 1)
            && LiveBytes(r) == LiveBytes(v) - (if v[k].nml then 0 else v[k].size)
            && Live(r) == Live(v[..k]) + Live(v[k + 1..])
  {
    hide LiveCount, LiveBytes, Live;
    var r := v[..k] + v[k + 1..];
    SplitBlock(v, k);
    SplitAt(r, k);
    assert r[..k] == v[..k] && r[k..] == v[k + 1..];
  }

  // Turning live block k into no-mans-land.
  lemma RetireBlock(v: seq<Info>, k: nat)
    requires k < |v| && !v[k].nml
    ensures var r := v[k := v[k].(nml := true)];
            && LiveCount(r) == LiveCount(v) - 1
            && LiveBytes(r) == LiveBytes(v) - v[k].size
            && Live(r) == Live(v[..k]) + Live(v[k + 1..])
  {
    hide LiveCount, LiveBytes, Live;
    var r := v[k := v[k].(nml := true)];
    SplitBlock(v, k);
    SplitBlock(r, k);
    assert r[..k] == v[..k] && r[k + 1..] == v[k + 1..];
    assert [] + Live(v[k + 1..]) == Live(v[k + 1..]);
  }

  // The live count is the chain's length exactly when nothing is retained.
  lemma {:induction false} NoneRetained(v: seq<Info>)
    ensures LiveCount(v) <= |v|
    ensures LiveCount(v) == |v| <==> forall i :: 0 <= i < |v| ==> !v[i].nml
  {
    if v != [] {
      NoneRetained(v[1..]);
      assert forall i :: 1 <= i < |v| ==> v[i] == v[1..][i - 1];
    }
  }

  lemma SomeRetained(v: seq<Info>, k: nat)
    requires k < |v| && v[k].nml
    ensures LiveCount(v) < |v|
  {
    NoneRetained(v);
    hide LiveCount;
  }

  lemma SumConcat(a: seq<nat>, b: seq<nat>)
    ensures Sum(a + b) == Sum(a) + Sum(b)
  {
    if b == [] {
      assert a + b == a;
    } else {
      SumConcat(a, b[..|b| - 1]);
      assert (a + b)[..|a + b| - 1] == a + b[..|b| - 1];
    }
  }

  // With nothing retained, the bytes of the chain are the live bytes.
  lemma {:induction false} SumOfLive(v: seq<Info>, sizes: seq<nat>)
    requires |sizes| == |v| && forall i :: 0 <= i < |v| ==> sizes[i] == v[i].size
    ensures (forall i :: 0 <= i < |v| ==> !v[i].nml) ==> Sum(sizes) == LiveBytes(v)
  {
    if v != [] && forall i :: 0 <= i < |v| ==> !v[i].nml {
      SumOfLive(v[1..], sizes[1..]);
      SumConcat([sizes[0]], sizes[1..]);
      assert [sizes[0]] + sizes[1..] == sizes;
      assert Sum([sizes[0]]) == Sum([]) + sizes[0];
    }
  }

  function BlockSet(xs: seq<Block>): set<Block> {
    set b | b in xs
  }

  ghost predicate Describes(xs: seq<Block>, v: seq<Info>)
    reads xs
  {
    |v| == |xs| && forall i :: 0 <= i < |xs| ==> xs[i].size == v[i].size && xs[i].nml == v[i].nml && xs[i].check
  }

  lemma DistinctRemove(xs: seq<Block>, k: nat)
    requires k < |xs| && Distinct(xs)
    ensures Distinct(xs[..k] + xs[k + 1..])
  {
  }

  // The links around block k bypass it.
  lemma ChainRemove(xs: seq<Block>, k: nat, head: Block?, tail: Block?)
    requires k < |xs| && Distinct(xs)
    requires forall i :: 0 <= i < |xs| && i != k ==>
               && xs[i].next == (if i + 1 == k then At(xs, k + 1) else At(xs, i + 1))
               && xs[i].prev == (if i - 1 == k then At(xs, k - 1) else At(xs, i - 1))
    requires head == if k == 0 then At(xs, 1) else xs[0]
    requires tail == if k == |xs| - 1 then At(xs, k - 1) else xs[|xs| - 1]
    ensures IsChain(xs[..k] + xs[k + 1..], head, tail)
  {
    hide Distinct;
    DistinctRemove(xs, k);
    var r := xs[..k] + xs[k + 1..];
    RemovedAt(xs, k, 0);
    RemovedAt(xs, k, |r| - 1);
    forall i | 0 <= i < |r|
      ensures r[i].next == At(r, i + 1) && r[i].prev == At(r, i - 1)
    {
      RemovedAt(xs, k, i);
      RemovedAt(xs, k, i + 1);
      RemovedAt(xs, k, i - 1);
    }
  }

  lemma RemovedAt(xs: seq<Block>, k: nat, i: int)
    requires k < |xs| && i >= -1
    ensures At(xs[..k] + xs[k + 1..], i) == At(xs, if i < k then i else i + 1)
  {
  }

  lemma ChainPrepend(xs: seq<Block>, mw: Block, tail: Block?)
    requires Distinct(xs) && mw !in xs
    requires mw.prev == null && mw.next == At(xs, 0)
    requires forall i :: 0 <= i < |xs| ==> xs[i].next == At(xs, i + 1) && xs[i].prev == if i == 0 then mw else At(xs, i - 1)
    requires tail == if xs == [] then mw else xs[|xs| - 1]
    ensures IsChain([mw] + xs, mw, tail)
  {
    var r := [mw] + xs;
    forall i | 0 <= i < |r|
      ensures r[i].next == At(r, i + 1) && r[i].prev == At(r, i - 1)
    {
      if i > 0 {
        var b := xs[i - 1];
        assert r[i] == b && b.prev == if i == 1 then mw else xs[i - 2];
      }
    }
  }

  lemma DescribesRemove(xs: seq<Block>, v: seq<Info>, k: nat)
    requires Describes(xs, v) && k < |xs|
    ensures |v| == |xs| && Describes(xs[..k] + xs[k + 1..], v[..k] + v[k + 1..])
  {
  }

  function Only(b: Block?): set<Block> {
    if b == null then {} else {b}
  }

  // The neighbours of a block of the chain are blocks of the chain.
  lemma NeighboursInChain(xs: seq<Block>, head: Block?, tail: Block?, k: nat)
    requires IsChain(xs, head, tail) && k < |xs|
    ensures Only(xs[k].prev) + Only(xs[k].next) <= BlockSet(xs)
  {
    assert xs[k].prev == At(xs, k - 1) && xs[k].next == At(xs, k + 1);
  }

  // The links of a chain lead to blocks of the chain only.
  lemma LinksInside(xs: seq<Block>, head: Block?, tail: Block?)
    requires IsChain(xs, head, tail)
    ensures forall b :: b in xs ==> (b.next == null || b.next in xs) && (b.prev == null || b.prev in xs)
  {
    forall b | b in xs
      ensures (b.next == null || b.next in xs) && (b.prev == null || b.prev in xs)
    {
      var i :| 0 <= i < |xs| && xs[i] == b;
      assert b.next == At(xs, i + 1) && b.prev == At(xs, i - 1);
    }
  }

  // Both neighbours exist and point back.
  predicate BackLinked(mw: Block)
    reads mw, mw.prev, mw.next
  {
    mw.prev != null && mw.prev.next == mw && mw.next != null && mw.next.prev == mw
  }

  // The pointer surgery of mwUnlink on any block; if it is block k of a chain, the
  // chain of the others is left.
  method UnlinkBlock(mw: Block, head: Block?, tail: Block?, ghost xs: seq<Block>, ghost k: nat) returns (h: Block?, t: Block?)
    requires k < |xs| ==> IsChain(xs, head, tail) && xs[k] == mw
    modifies Only(mw.prev)`next, Only(mw.next)`prev
    ensures k < |xs| ==> IsChain(xs[..k] + xs[k + 1..], h, t) && mw.next == old(mw.next)
  {
    if k < |xs| {
      NeighboursAt(xs, head, tail, k);
    }
    h := BypassNext(mw, head, tail, xs, k);
    t := BypassPrev(mw, tail, xs, k);
    if k < |xs| {
      hide Distinct;
      ChainRemove(xs, k, h, t);
    }
  }

  lemma NeighboursAt(xs: seq<Block>, head: Block?, tail: Block?, k: nat)
    requires IsChain(xs, head, tail) && k < |xs|
    ensures xs[k].prev == At(xs, k - 1) && xs[k].next == At(xs, k + 1)
    ensures forall i :: 0 <= i < |xs| ==> (xs[i] == xs[k].prev <==> i == k - 1) && (xs[i] == xs[k].next <==> i == k + 1)
  {
  }

  // The first half of mwUnlink.
  method BypassNext(mw: Block, head: Block?, ghost tail: Block?, ghost xs: seq<Block>, ghost k: nat) returns (h: Block?)
    requires k < |xs| ==> IsChain(xs, head, tail) && xs[k] == mw
    modifies Only(mw.prev)`next
    ensures mw.next == old(mw.next)
    ensures k < |xs| ==> h == if k == 0 then At(xs, 1) else xs[0]
    ensures k < |xs| ==> forall i :: 0 <= i < |xs| ==> xs[i].next == if i + 1 == k then At(xs, k + 1) else At(xs, i + 1)
  {
    if k < |xs| {
      NeighboursAt(xs, head, tail, k);
      assert k > 0 ==> xs[k - 1].next == mw;
    }
    h := head;
    if mw.prev == null {
      h := mw.next;
    } else if mw.prev.next == mw {
      mw.prev.next := mw.next;
    }
  }

  // The second half.
  method BypassPrev(mw: Block, tail: Block?, ghost xs: seq<Block>, ghost k: nat) returns (t: Block?)
    requires k < |xs| ==>
               && xs[k] == mw && tail == xs[|xs| - 1] && mw.next == At(xs, k + 1)
               && (forall i :: 0 <= i < |xs| ==> xs[i].prev == At(xs, i - 1) && (xs[i] == mw.next <==> i == k + 1))
    modifies Only(mw.next)`prev
    ensures k < |xs| ==> t == if k == |xs| - 1 then At(xs, k - 1) else xs[|xs| - 1]
    ensures k < |xs| ==> forall i :: 0 <= i < |xs| ==> xs[i].prev == if i - 1 == k then At(xs, k - 1) else At(xs, i - 1)
  {
    t := tail;
    if mw.next == null {
      t := mw.prev;
    } else if mw.next.prev == mw {
      mw.next.prev := mw.prev;
    }
  }

  // The pointer surgery of mwMalloc: a new block at the head.
  method LinkBlock(size: nat, head: Block?, tail: Block?, ghost xs: seq<Block>) returns (mw: Block, t: Block?)
    requires IsChain(xs, head, tail)
    modifies BlockSet(xs)`prev
    ensures fresh(mw) && mw.size == size && !mw.nml && mw.check
    ensures IsChain([mw] + xs, mw, t)
  {
    mw := new Block(null, head, size);
    t := tail;
    if head != null {
      head.prev := mw;
    }
    if tail == null {
      t := mw;
    }
    ChainPrepend(xs, mw, t);
  }

  // Setting the no-mans-land flag, of block k of the chain or of a foreign one.
  method MarkNml(p: Block, ghost head: Block?, ghost tail: Block?, ghost xs: seq<Block>, ghost k: nat)
    requires k < |xs| ==> IsChain(xs, head, tail) && xs[k] == p
    modifies p`nml
    ensures p.nml && (k < |xs| ==> IsChain(xs, head, tail))
  {
    p.nml := true;
  }

  class Heap {
    var head: Block?
    var tail: Block?
    var numCur: int       // mwNumCurAlloc
    var statCur: int      // mwStatCurAlloc
    var useLimit: bool
    var limit: int
    var keepNml: bool     // mwNML
    ghost var xs: seq<Block>
    ghost var v: seq<Info>

    ghost predicate Shape()
      reads this, xs
    {
      IsChain(xs, head, tail) && Describes(xs, v)
    }

    ghost predicate Valid()
      reads this, xs
    {
      Shape() && numCur == LiveCount(v) && statCur == LiveBytes(v)
    }

    // The byte limit, when there is one, is met.
    ghost predicate Within()
      reads this
    {
      useLimit ==> statCur <= limit
    }

    constructor ()
      ensures Valid() && xs == [] && v == [] && !useLimit
    {
      head, tail, numCur, statCur, useLimit, limit, keepNml := null, null, 0, 0, false, 0, false;
      xs, v := [], [];
    }

    // mwUnlink: on block k of the chain it leaves the chain of the others.
    method Unlink(mw: Block, ghost k: nat)
      requires k < |xs| ==> Shape() && xs[k] == mw
      modifies this`head, this`tail, this`xs, this`v, Only(mw.prev)`next, Only(mw.next)`prev
      ensures k < old(|xs|) ==> Shape() && mw.next == old(mw.next)
      ensures k < old(|xs|) ==> xs == old(xs[..k] + xs[k + 1..]) && v == old(v[..k] + v[k + 1..])
      ensures k >= old(|xs|) ==> xs == old(xs) && v == old(v)
    {
      hide IsChain;
      head, tail := UnlinkBlock(mw, head, tail, xs, k);
      if k < |xs| {
        DescribesRemove(xs, v, k);
        xs, v := xs[..k] + xs[k + 1..], v[..k] + v[k + 1..];
      }
    }

    // Linking a new block in at the head, as mwMalloc does.
    method Link(size: nat) returns (mw: Block)
      requires Shape()
      modifies this`head, this`tail, this`xs, this`v, BlockSet(xs)`prev
      ensures Shape() && fresh(mw) && mw.size == size && !mw.nml
      ensures xs == [mw] + old(xs) && v == [Info(size, false)] + old(v)
    {
      hide IsChain;
      mw, tail := LinkBlock(size, head, tail, xs);
      head := mw;
      xs, v := [mw] + xs, [Info(size, false)] + v;
    }

    // Unlinking a no-mans-land block changes nothing the accounting counts; the answer is
    // the block behind it.
    method DropRetained(mw: Block, ghost k: nat) returns (mw2: Block?)
      requires Valid() && k < |xs| && xs[k] == mw && v[k].nml
      modifies this`head, this`tail, this`xs, this`v, BlockSet(xs)`prev, BlockSet(xs)`next
      ensures Valid() && Live(v) == old(Live(v))
      ensures xs == old(xs[..k] + xs[k + 1..]) && v == old(v[..k] + v[k + 1..])
      ensures forall b :: b in xs <==> b in old(xs) && b != mw
      ensures mw2 == At(xs, k) && |v| == |xs| == old(|v|) - 1 && numCur <= |v| && forall i :: 0 <= i < k ==> v[i] == old(v)[i]
    {
      hide IsChain, LiveCount, LiveBytes, Live;
      ChainDistinct(xs, head, tail);
      ChainLink(xs, head, tail, k);
      SomeRetained(v, k);
      mw2 := mw.next;
      DropMember(xs, k);
      DropBlock(v, k);
      SplitBlock(v, k);
      assert [] + Live(v[k + 1..]) == Live(v[k + 1..]);
      NeighboursInChain(xs, head, tail, k);
      Unlink(mw, k);
    }

    // The blocks of the chain.
    method Blocks() returns (safe: set<Block>)
      requires Valid()
      ensures safe == BlockSet(xs) && AllIn(xs, safe)
    {
      safe := {};
      var mw := head;
      ghost var k := 0;
      while mw != null
        invariant 0 <= k <= |xs| && mw == At(xs, k) && safe == BlockSet(xs[..k])
        decreases |xs| - k
      {
        safe := safe + {mw};
        mw := mw.next;
        k := k + 1;
      }
      assert xs[..k] == xs;
    }

    // mwFreeUp with an empty grab list and `urgent` 0: release no-mans-land blocks
    // until a trial allocation succeeds.  `probe(i)` is the outcome of the i-th trial, and
    // there is one behind every block released.
    method FreeUp(needed: nat, probe: nat -> bool) returns (r: nat)
      requires Valid()
      modifies this`head, this`tail, this`xs, this`v, BlockSet(xs)`prev, BlockSet(xs)`next
      ensures Valid() && Live(v) == old(Live(v))
      ensures numCur <= |v| <= old(|v|) && forall i :: 0 <= i < old(|v|) - |v| - 1 ==> !probe(i)
      ensures if |v| < old(|v|) && probe(old(|v|) - |v| - 1) then r == needed
              else
                && r == 0 && (forall i :: 0 <= i < |v| ==> !v[i].nml)
                && forall i :: 0 <= i < old(|v| - numCur) ==> !probe(i)
      ensures forall b :: b in xs ==> b in old(xs)
      ensures forall b :: b in old(xs) && !b.nml ==> b in xs
    {
      hide IsChain, LiveCount, LiveBytes, Live, Describes;
      ChainStart(xs, head, tail);
      NoneRetained(v);
      SameLength(xs, v);
      var mw := head;
      ghost var k := 0;
      var trial: nat := 0;
      while mw != null
        invariant Valid() && Live(v) == old(Live(v))
        invariant 0 <= k <= |xs| == |v| && mw == At(xs, k) && numCur <= |v|
        invariant forall i :: 0 <= i < k ==> !v[i].nml
        invariant trial + |v| == old(|v|) && forall i :: 0 <= i < trial ==> !probe(i)
        invariant forall b :: b in xs ==> b in old(xs)
        invariant forall b :: b in old(xs) && !b.nml ==> b in xs
        decreases |xs| - k
      {
        ChainLink(xs, head, tail, k);
        BlockInfo(xs, v, k);
        if !mw.nml {
          mw := mw.next;
          k := k + 1;
        } else {
          mw := DropRetained(mw, k);
          if probe(trial) {
            return needed;
          }
          trial := trial + 1;
        }
      }
      NoneRetained(v);
      return 0;
    }

    // The part of mwMalloc that asks the allocator below, releasing no-mans-land blocks
    // when it refuses.
    method Obtain(needed: nat, mem: Memory) returns (got: bool)
      requires Valid() && needed > 0
      modifies this`head, this`tail, this`xs, this`v, BlockSet(xs)`prev, BlockSet(xs)`next
      ensures Valid() && Live(v) == old(Live(v))
      ensures got <==> mem.first || (mem.second && exists i :: 0 <= i < old(|v| - numCur) && mem.probe(i))
      ensures forall b :: b in xs ==> b in old(xs)
      ensures forall b :: b in old(xs) && !b.nml ==> b in xs
    {
      hide IsChain, LiveCount, LiveBytes, Live, Describes;
      got := mem.first;
      if !got {
        var r := FreeUp(needed, mem.probe);
        if r >= needed {
          assert 0 <= old(|v|) - |v| - 1 < old(|v| - numCur);
          got := mem.second;
        }
      }
    }

    // mwMalloc.  `overhead` is the bookkeeping added to every block; `mem` says how
    // the allocator below behaves; it never hands out 2^63 bytes or more.  The answer is
    // a block exactly when the sizes do not overflow, the limit is met, and the allocator
    // says yes at once, or after a trial has succeeded behind one of the retained blocks.
    method Malloc(size: nat, overhead: nat, mem: Memory) returns (p: Block?)
      requires Valid()
      requires size < SIZES && 0 < overhead < SIZES && (mem.first || mem.second ==> size < LONGS)
      modifies this`head, this`tail, this`xs, this`v, this`numCur, this`statCur, BlockSet(xs)`prev, BlockSet(xs)`next
      ensures Valid()
      ensures size + overhead >= SIZES || (useLimit && (if size < LONGS then size else size - SIZES) + old(statCur) > limit) ==>
                p == null && v == old(v)
      ensures p != null <==>
                && size + overhead < SIZES && (useLimit ==> size + old(statCur) <= limit)
                && (mem.first || (mem.second && exists i :: 0 <= i < old(|v| - numCur) && mem.probe(i)))
      ensures p == null ==> Live(v) == old(Live(v))
      ensures p != null ==> fresh(p) && p in xs && p.size == size && !p.nml && size < LONGS
      ensures p != null ==> Live(v) == [Info(size, false)] + old(Live(v))
      ensures p != null ==> statCur == old(statCur) + size && numCur == old(numCur) + 1
      ensures p != null && useLimit ==> statCur <= limit
      ensures p == null ==> statCur == old(statCur) && numCur == old(numCur)
      ensures forall b :: b in xs && b != p ==> b in old(xs)
      ensures forall b :: b in old(xs) && !b.nml ==> b in xs
    {
      hide IsChain, LiveCount, LiveBytes, Live, Describes, Needed;
      var needed := Needed(size, overhead);
      if needed < size {
        return null;
      }
      if useLimit && AsLong(size) + statCur > limit {
        return null;
      }
      var got := Obtain(needed, mem);
      LiveDecides(v, old(v));
      if !got {
        return null;
      }
      LiveBlock(size, v);
      p := Link(size);
      numCur := numCur + 1;
      statCur := statCur + size;
    }

    // No no-mans-land block is retained.
    ghost predicate NoneKept()
      reads this, xs
    {
      forall b :: b in xs ==> !b.nml
    }

    // A foreign block that mwIsOwned takes for one of the chain's: it can be read, it
    // passes the checksum, and either its neighbours point back to it or mwRelink
    // finds the heap complete.
    ghost predicate Mistaken(mw: Block, safe: set<Block>)
      reads this, xs, mw, mw.prev, mw.next
    {
      mw !in xs && xs != [] && mw in safe && mw.check && (BackLinked(mw) || NoneKept())
    }

    // mwRelink on a foreign block of an intact heap: nothing changes.
    method RelinkForeign(mw: Block, safe: set<Block>) returns (r: bool)
      requires Valid() && AllIn(xs, safe) && mw !in xs && xs != [] && mw in safe
      modifies mw
      ensures Valid() && unchanged(mw)
      ensures r <==> NoneKept()
    {
      hide LiveCount, LiveBytes, IsChain, DamagedAt, AllIn, Describes;
      NoneRetained(v);
      ChainBytes(xs, v);
      NoneKeptInfo(xs, v);
      ForeignDamage(xs, mw, head, tail, safe);
      EndStops(mw, safe, head, true);
      EndStops(mw, safe, tail, false);
      var out := Relink(mw, head, tail, safe, numCur, statCur, xs);
      r := out == Done(true);
    }

    // The ownership test mwIsOwned on a heap without damaged blocks: exactly the blocks
    // of the chain and the mistaken ones are owned.
    method IsOwned(mw: Block, safe: set<Block>) returns (b: bool)
      requires Valid() && AllIn(xs, safe)
      modifies mw
      ensures Valid() && unchanged(mw)
      ensures b <==> mw in xs || Mistaken(mw, safe)
      ensures mw !in xs ==>
                (b <==>
                   && xs != [] && mw in safe && mw.check
                   && ((forall x :: x in xs ==> !x.nml)
                       || (mw.prev != null && mw.prev.next == mw && mw.next != null && mw.next.prev == mw)))
    {
      hide LiveCount, LiveBytes, Live, IsChain, DamagedAt;
      if mw !in safe {
        MembersSafeAll(xs, safe);
        return false;
      }
      EmptyHeap(this);
      if head == null && tail == null && statCur == 0 {
        return false;
      }
      if !mw.check {
        CheckedMembers(xs, v);
        b := HoldsBlock(mw, safe);
        return;
      }
      ghost var inside := mw in xs;
      if mw.prev != null && mw.prev !in safe {
        ChainNeighbours(xs, head, tail, safe, mw);
        var _ := RelinkForeign(mw, safe);
      }
      if mw.next != null && mw.next !in safe {
        ChainNeighbours(xs, head, tail, safe, mw);
        var _ := RelinkForeign(mw, safe);
      }
      ChainNeighbours(xs, head, tail, safe, mw);
      var retv := 0;
      if mw.prev != null {
        if mw.prev.next == mw { retv := retv + 1; }
      } else if head == mw {
        retv := retv + 1;
      }
      if mw.next != null {
        if mw.next.prev == mw { retv := retv + 1; }
      } else if tail == mw {
        retv := retv + 1;
      }
      retv := retv + 1;
      if retv > 2 {
        return true;
      }
      var ok := HoldsBlock(mw, safe);
      if !ok {
        b := RelinkForeign(mw, safe);
      } else {
        return false;
      }
    }

    // mwIsHeapOK(mw) on an intact heap.
    method HoldsBlock(mw: Block, safe: set<Block>) returns (ok: bool)
      requires Valid() && AllIn(xs, safe) && xs != []
      ensures ok <==> mw in xs
    {
      hide LiveCount, LiveBytes, Live;
      assert HasChain(head, tail, safe, xs, null);
      ok := IsHeapOK(head, tail, safe, mw);
      if ok {
        ghost var ys: seq<Block> :| HasChain(head, tail, safe, ys, mw);
        ChainIsUnique(head, tail, xs, ys);
      } else {
        assert !HasChain(head, tail, safe, xs, mw);
      }
    }

    // The neighbours whose links mwFree may change.
    ghost function Touched(p: Block?, safe: set<Block>): set<Block>
      reads this, xs, p, if p == null then {} else Only(p.prev) + Only(p.next)
    {
      if p != null && !p.nml && (p in xs || Mistaken(p, safe)) then Only(p.prev) + Only(p.next) else {}
    }

    // A pointer whose freeing ruins the accounting.
    ghost predicate Ruinous(p: Block?, safe: set<Block>)
      reads this, xs, p, if p == null then {} else Only(p.prev) + Only(p.next)
    {
      p != null && Mistaken(p, safe) && !p.nml
    }

    // mwFree, of any pointer.  A live block is unlinked and overwritten, or kept as
    // no-mans-land; NULL, retained and foreign pointers change nothing, but for a
    // mistaken one, after which a block is missing from the count that nobody freed.
    method Free(p: Block?, safe: set<Block>)
      requires Valid() && AllIn(xs, safe)
      modifies this`head, this`tail, this`xs, this`v, this`numCur, this`statCur
      modifies Only(p), Touched(p, safe)`prev, Touched(p, safe)`next
      ensures Valid() <==> !old(Ruinous(p, safe))
      ensures old(Ruinous(p, safe)) ==>
                xs == old(xs) && v == old(v) && numCur == old(numCur) - 1 && statCur == old(statCur) - p.size
      ensures p == null || (p !in old(xs) && !old(Mistaken(p, safe))) || old(p.nml) ==> v == old(v) && xs == old(xs)
      ensures p != null && p in old(xs) && !old(p.nml) ==>
                && multiset(Live(v)) == multiset(old(Live(v))) - multiset{Info(p.size, false)}
                && |Live(v)| == |old(Live(v))| - 1
                && statCur == old(statCur) - p.size && numCur == old(numCur) - 1
                && forall b :: b in xs <==> b in old(xs) && (b != p || p.nml)
      ensures p != null && p in old(xs) && !old(p.nml) ==> p.nml == keepNml && (keepNml ==> xs == old(xs))
      ensures p != null ==> p.size == old(p.size) && (p in xs || p.nml || !p.check || old(p !in xs))
      ensures p != null ==> (old(p.nml) ==> p.nml) && (p.check ==> old(p.check))
    {
      hide IsChain, LiveCount, LiveBytes, Live, Describes;
      if p == null {
        return;
      }
      var owned := IsOwned(p, safe);
      if !owned || p.nml {
        return;
      }
      ghost var k := |xs|;
      if p in xs {
        k :| 0 <= k < |xs| && xs[k] == p;
      }
      Release(p, k);
    }

    // mwRelink on a heap whose only damage is in the links and the checksum of one
    // block: the whole heap is valid again, and the answer is yes exactly when no
    // no-mans-land block is retained.
    method Repair(mw: Block, safe: set<Block>) returns (out: Outcome)
      requires DamagedAt(xs, mw, head, tail, safe) && mw in xs
      requires |v| == |xs| && forall i :: 0 <= i < |xs| ==> xs[i].size == v[i].size && xs[i].nml == v[i].nml
      requires forall i :: 0 <= i < |xs| && xs[i] != mw ==> xs[i].check
      requires numCur == LiveCount(v) && statCur == LiveBytes(v)
      modifies mw`prev, mw`next, mw`size, mw`check
      ensures Valid() && AllIn(xs, safe)
      ensures out == Done(forall i :: 0 <= i < |v| ==> !v[i].nml)
    {
      hide LiveCount, LiveBytes, DamagedAt, IsChain, AllIn;
      DamagedEnds(xs, mw, head, tail, safe);
      if head != mw {
        EndStops(mw, safe, head, true);
      }
      if tail != mw {
        EndStops(mw, safe, tail, false);
      }
      NoneRetained(v);
      SumOfLive(v, Sizes(xs));
      out := Relink(mw, head, tail, safe, numCur, statCur, xs);
    }

    // mwRealloc: without the limit, allocate anew and free the old block; the limit
    // has been checked against the net change.  A live block is moved exactly when that
    // change is within the limit and the allocation succeeds; otherwise it stays.
    method Realloc(p: Block?, size: nat, overhead: nat, mem: Memory, safe: set<Block>) returns (q: Block?)
      requires Valid() && AllIn(xs, safe)
      requires size < SIZES && 0 < overhead < SIZES && (mem.first || mem.second ==> size < LONGS)
      modifies this, BlockSet(xs)`prev, BlockSet(xs)`next, Only(p), Touched(p, safe)`prev, Touched(p, safe)`next
      ensures Valid() <==> !(old(Ruinous(p, safe)) && (size == 0 || q != null))
      ensures useLimit == old(useLimit) && limit == old(limit)
      ensures old(Within() && !Ruinous(p, safe)) ==> Within()
      ensures q != null ==> fresh(q) && q in xs && q.size == size && !q.nml
      ensures forall b :: b in xs ==> b in old(xs) || fresh(b)
      ensures forall b :: b in old(xs) && b != p && !b.nml ==> b in xs
      ensures p == null && q != null ==> Live(v) == [Info(size, false)] + old(Live(v))
      ensures p != null && (size == 0 || q != null) && old(p in xs && !p.nml) ==>
                multiset(Live(v)) == multiset(old(Live(v))) - multiset{Info(p.size, false)}
                                     + if q == null then multiset{} else multiset{Info(size, false)}
      ensures p != null && q != null ==> !old(p.nml) && (p in old(xs) || old(Mistaken(p, safe)))
      ensures p == null && q == null ==> Live(v) == old(Live(v)) && statCur == old(statCur)
      ensures p != null && q == null && (size != 0 || old(p !in xs || p.nml)) ==> Live(v) == old(Live(v))
      ensures p != null && size == 0 ==> q == null
      ensures p == null ==>
                (q != null <==>
                   && size + overhead < SIZES && (useLimit ==> size + old(statCur) <= limit)
                   && (mem.first || (mem.second && exists i :: 0 <= i < old(|v| - numCur) && mem.probe(i))))
      ensures p != null && size > 0 && old(p in xs && !p.nml) ==>
                (q != null <==>
                   && size + overhead < SIZES && (useLimit ==> size + old(statCur) - p.size <= limit)
                   && (mem.first || (mem.second && exists i :: 0 <= i < old(|v| - numCur) && mem.probe(i))))
      ensures p != null && old(p in xs && !p.nml) ==> ((p in xs && !p.nml) <==> size != 0 && q == null)
      ensures p != null ==> p.size == old(p.size) && (p in xs || p.nml || !p.check || old(p !in xs))
      ensures p != null ==> (old(p.nml) ==> p.nml) && (p.check ==> old(p.check))
    {
      hide IsChain, LiveCount, LiveBytes, Live, Describes;
      if p == null {
        q := Malloc(size, overhead, mem);
        return;
      }
      if size == 0 {
        Free(p, safe);
        return null;
      }
      var owned := IsOwned(p, safe);
      if !owned || p.nml {
        return null;
      }
      if useLimit && AsLong(size) + statCur - p.size > limit {
        return null;
      }
      var oldUseLimit := useLimit;
      useLimit := false;
      q := Move(p, size, overhead, mem, safe);
      useLimit := oldUseLimit;
    }

    // The "fake realloc operation" of mwRealloc, the limit being off.
    method Move(p: Block, size: nat, overhead: nat, mem: Memory, safe: set<Block>) returns (q: Block?)
      requires Valid() && AllIn(xs, safe) && (p in xs || Mistaken(p, safe)) && !p.nml && !useLimit
      requires size < SIZES && 0 < overhead < SIZES && (mem.first || mem.second ==> size < LONGS)
      modifies this`head, this`tail, this`xs, this`v, this`numCur, this`statCur, BlockSet(xs)`prev, BlockSet(xs)`next
      modifies p, Touched(p, safe)`prev, Touched(p, safe)`next
      ensures q != null <==>
                && size + overhead < SIZES
                && (mem.first || (mem.second && exists i :: 0 <= i < old(|v| - numCur) && mem.probe(i)))
      ensures Valid() <==> p in old(xs) || q == null
      ensures q != null ==> fresh(q) && q in xs && q.size == size && !q.nml && size < LONGS
      ensures q != null && p in old(xs) ==>
                && statCur == old(statCur) + size - p.size
                && multiset(Live(v)) == multiset(old(Live(v))) - multiset{Info(p.size, false)} + multiset{Info(size, false)}
      ensures q == null ==> Live(v) == old(Live(v)) && statCur == old(statCur)
      ensures p in old(xs) ==> ((p in xs && !p.nml) <==> q == null)
      ensures forall b :: b in xs ==> b in old(xs) || fresh(b)
      ensures forall b :: b in old(xs) && b != p && !b.nml ==> b in xs
      ensures p.size == old(p.size) && (p in xs || p.nml || !p.check || old(p !in xs)) && (p.check ==> old(p.check))
    {
      hide IsChain, LiveCount, LiveBytes, Live, Describes, Mistaken, Touched, AllIn;
      if p in xs {
        LiveMember(p);
      }
      q := MallocBeside(p, size, overhead, mem, safe);
      if q != null {
        Free(p, safe + Only(q));
      }
    }

    lemma LiveMember(p: Block)
      requires Shape() && p in xs && !p.nml
      ensures Info(p.size, false) in Live(v)
    {
      hide Live;
      var k :| 0 <= k < |xs| && xs[k] == p;
      LiveHas(v, k);
    }

    // What mwIsOwned says of p, and what freeing it touches, is as it was.
    ghost predicate Beside(p: Block, safe: set<Block>, was: seq<Block>, touched: set<Block>, q: Block?)
      reads this, xs, p, Only(p.prev) + Only(p.next)
    {
      q != null ==>
        && (p !in was ==> Mistaken(p, safe)) && AllIn(xs, safe)
        && Touched(p, safe) <= BlockSet(was) + touched + {q}
    }

    // Allocating leaves what mwIsOwned says of a pointer as it was.
    method MallocBeside(p: Block, size: nat, overhead: nat, mem: Memory, safe: set<Block>) returns (q: Block?)
      requires Valid() && AllIn(xs, safe) && (p in xs || Mistaken(p, safe)) && !p.nml && !useLimit
      requires size < SIZES && 0 < overhead < SIZES && (mem.first || mem.second ==> size < LONGS)
      modifies this`head, this`tail, this`xs, this`v, this`numCur, this`statCur, BlockSet(xs)`prev, BlockSet(xs)`next
      ensures Valid()
      ensures q != null <==>
                && size + overhead < SIZES
                && (mem.first || (mem.second && exists i :: 0 <= i < old(|v| - numCur) && mem.probe(i)))
      ensures Beside(p, safe + Only(q), old(xs), old(Touched(p, safe)), q)
      ensures q != null ==> fresh(q) && q in xs && q.size == size && !q.nml && size < LONGS
      ensures q != null ==> Live(v) == [Info(size, false)] + old(Live(v))
      ensures q != null ==> statCur == old(statCur) + size && numCur == old(numCur) + 1
      ensures q == null ==> Live(v) == old(Live(v)) && statCur == old(statCur) && numCur == old(numCur)
      ensures forall b :: b in xs && b != q ==> b in old(xs)
      ensures forall b :: b in old(xs) && !b.nml ==> b in xs
    {
      hide IsChain, LiveCount, LiveBytes, Live, Describes, AllIn;
      LinksInside(xs, head, tail);
      MembersSafeAll(xs, safe);
      q := Malloc(size, overhead, mem);
      LinksInside(xs, head, tail);
      if q != null {
        MembersSafe(xs, safe + Only(q));
      }
    }

    // Keeping a block as no-mans-land; a live one of the chain is block k.
    method Retain(p: Block, ghost k: nat)
      requires k < |xs| ==> Shape() && xs[k] == p
      modifies this`v, p`nml
      ensures p.nml
      ensures k < |xs| ==> Shape() && v == old(v)[k := old(v)[k].(nml := true)]
      ensures k >= |xs| ==> v == old(v)
    {
      hide IsChain;
      if k < |xs| {
        ChainDistinct(xs, head, tail);
      }
      MarkNml(p, head, tail, xs, k);
      if k < |xs| {
        v := v[k := v[k].(nml := true)];
      }
    }

    // The part of mwFree behind the ownership test, for block k of the chain or, if k
    // is its length, for a foreign block.
    method Release(p: Block, ghost k: nat)
      requires Valid() && k <= |xs| && !p.nml && (if k < |xs| then xs[k] == p else p !in xs)
      modifies this`head, this`tail, this`xs, this`v, this`numCur, this`statCur
      modifies Only(p.prev)`next, Only(p.next)`prev, p`nml, p`check
      ensures statCur == old(statCur) - p.size && numCur == old(numCur) - 1
      ensures k == old(|xs|) ==> xs == old(xs) && v == old(v)
      ensures k < old(|xs|) ==>
                && Valid()
                && multiset(Live(v)) == multiset(old(Live(v))) - multiset{Info(p.size, false)}
                && |Live(v)| == |old(Live(v))| - 1
                && forall b :: b in xs <==> b in old(xs) && (b != p || p.nml)
      ensures p.nml == keepNml && (keepNml ==> xs == old(xs))
      ensures p.nml || !p.check
      ensures p.check ==> old(p.check)
    {
      hide IsChain, LiveCount, LiveBytes, Live, Describes;
      if k < |xs| {
        BlockInfo(xs, v, k);
        ChainDistinct(xs, head, tail);
        DropMember(xs, k);
        Retired(v, k);
      }
      numCur := numCur - 1;
      statCur := statCur - p.size;
      if keepNml {
        Retain(p, k);
      } else {
        Unlink(p, k);
        Overwrite(p);
      }
    }

    // The block's memory is filled with a pattern that fails the checksum.
    method Overwrite(p: Block)
      modifies p`check
      ensures !p.check
      ensures old(Shape()) && p !in xs ==> Shape()
    {
      p.check := false;
    }
  }

  // On an intact chain nothing is damaged by links outside it.
  lemma ForeignDamage(xs: seq<Block>, mw: Block, head: Block?, tail: Block?, safe: set<Block>)
    requires IsChain(xs, head, tail) && AllIn(xs, safe) && xs != [] && mw !in xs
    ensures DamagedAt(xs, mw, head, tail, safe)
    ensures head != null && head.prev == null && head in safe - {mw}
    ensures tail != null && tail.next == null && tail in safe - {mw}
  {
  }

  lemma ChainBytes(xs: seq<Block>, v: seq<Info>)
    requires Describes(xs, v)
    ensures |v| == |xs|
    ensures (forall i :: 0 <= i < |v| ==> !v[i].nml) ==> Sum(Sizes(xs)) == LiveBytes(v)
  {
    hide LiveBytes, Sum;
    SumOfLive(v, Sizes(xs));
  }

  lemma NoneKeptInfo(xs: seq<Block>, v: seq<Info>)
    requires Describes(xs, v)
    ensures (forall b :: b in xs ==> !b.nml) <==> forall i :: 0 <= i < |v| ==> !v[i].nml
  {
    if forall b :: b in xs ==> !b.nml {
      forall i | 0 <= i < |v|
        ensures !v[i].nml
      {
        assert xs[i] in xs;
      }
    }
  }

  lemma CheckedMembers(xs: seq<Block>, v: seq<Info>)
    requires Describes(xs, v)
    ensures forall b :: b in xs ==> b.check
  {
  }

  lemma MembersSafeAll(xs: seq<Block>, safe: set<Block>)
    requires AllIn(xs, safe)
    ensures forall b :: b in xs ==> b in safe
  {
  }

  lemma EmptyHeap(h: Heap)
    requires h.Valid()
    ensures h.xs == [] <==> h.head == null && h.tail == null && h.statCur == 0
  {
  }

  // What the test of the links sees.
  lemma ChainNeighbours(xs: seq<Block>, head: Block?, tail: Block?, safe: set<Block>, mw: Block)
    requires IsChain(xs, head, tail) && AllIn(xs, safe)
    ensures mw in xs ==>
              && (if mw.prev == null then head == mw else mw.prev in safe && mw.prev.next == mw)
              && (if mw.next == null then tail == mw else mw.next in safe && mw.next.prev == mw)
    ensures mw !in xs ==> head != mw && tail != mw
  {
    if mw in xs {
      var k :| 0 <= k < |xs| && xs[k] == mw;
      assert k > 0 ==> xs[k - 1].next == mw;
      assert k + 1 < |xs| ==> xs[k + 1].prev == mw;
    }
  }

  lemma NoLive()
    ensures Live([]) == [] && LiveCount([]) == 0 && LiveBytes([]) == 0
  {
  }

  lemma MembersSafe(xs: seq<Block>, safe: set<Block>)
    requires forall b :: b in xs ==> b in safe
    ensures AllIn(xs, safe)
  {
  }

  lemma SameLength(xs: seq<Block>, v: seq<Info>)
    requires Describes(xs, v)
    ensures |v| == |xs|
  {
  }

  lemma BlockInfo(xs: seq<Block>, v: seq<Info>, k: nat)
    requires Describes(xs, v) && k < |xs|
    ensures |v| == |xs| && v[k] == Info(xs[k].size, xs[k].nml)
  {
  }

  lemma DropMember(xs: seq<Block>, k: nat)
    requires k < |xs| && Distinct(xs)
    ensures forall b :: b in xs[..k] + xs[k + 1..] <==> b in xs && b != xs[k]
  {
    var r := xs[..k] + xs[k + 1..];
    forall b | b in xs && b != xs[k]
      ensures b in r
    {
      var i :| 0 <= i < |xs| && xs[i] == b;
      assert r[if i < k then i else i - 1] == b;
    }
  }

  lemma DamagedEnds(xs: seq<Block>, mw: Block, head: Block?, tail: Block?, safe: set<Block>)
    requires DamagedAt(xs, mw, head, tail, safe)
    ensures AllIn(xs, safe) && (mw in xs ==> mw in safe)
    ensures head != null && head in safe && (head != mw ==> head.prev == null)
    ensures tail != null && tail in safe && (tail != mw ==> tail.next == null)
  {
  }

  lemma ChainDistinct(xs: seq<Block>, head: Block?, tail: Block?)
    requires IsChain(xs, head, tail)
    ensures Distinct(xs)
  {
  }

  // Freeing live block k, either way.
  lemma Retired(v: seq<Info>, k: nat)
    requires k < |v| && !v[k].nml
    ensures forall r :: r == v[..k] + v[k + 1..] || r == v[k := v[k].(nml := true)] ==>
              && LiveCount(r) == LiveCount(v) - 1
              && LiveBytes(r) == LiveBytes(v) - v[k].size
              && multiset(Live(r)) == multiset(Live(v)) - multiset{v[k]}
              && |Live(r)| == |Live(v)| - 1
  {
    hide LiveCount, LiveBytes, Live;
    DropBlock(v, k);
    RetireBlock(v, k);
    SplitBlock(v, k);
  }

  lemma LiveBlock(size: nat, v: seq<Info>)
    ensures var w := [Info(size, false)] + v;
            Live(w) == [Info(size, false)] + Live(v) && LiveCount(w) == 1 + LiveCount(v) && LiveBytes(w) == size + LiveBytes(v)
  {
    LiveStep([Info(size, false)] + v);
    assert ([Info(size, false)] + v)[1..] == v;
  }

  const SIZES := 0x1_0000_0000_0000_0000   // 2^64: a size_t is below
  const LONGS := 0x8000_0000_0000_0000     // 2^63: a long is below, and not below -2^63

  // The cast (long) size.
  function AsLong(size: nat): int {
    if size < LONGS then size else size - SIZES
  }

  // The size asked of the allocator below, as a size_t: smaller than the size itself
  // exactly when it overflows.
  function Needed(size: nat, overhead: nat): (r: nat)
    requires size < SIZES && 0 < overhead < SIZES
    ensures r < size <==> size + overhead >= SIZES
    ensures size + overhead < SIZES ==> r > 0
  {
    (overhead + size) % SIZES
  }

  // What malloc answers the first time, to each trial of mwFreeUp, and afterwards.
  datatype Memory = Memory(first: bool, probe: nat -> bool, second: bool)

  // The counters are functions of the live blocks alone.
  lemma {:induction false} LiveDetermines(a: seq<Info>)
    ensures LiveCount(a) == |Live(a)| && LiveBytes(a) == LiveBytes(Live(a))
  {
    if a != [] {
      LiveDetermines(a[1..]);
      if !a[0].nml {
        var l := [a[0]] + Live(a[1..]);
        assert Live(a) == l && l[0] == a[0] && l[1..] == Live(a[1..]);
        LiveStep(l);
      } else {
        assert [] + Live(a[1..]) == Live(a[1..]);
      }
    }
  }

  lemma LiveDecides(a: seq<Info>, b: seq<Info>)
    requires Live(a) == Live(b)
    ensures LiveCount(a) == LiveCount(b) && LiveBytes(a) == LiveBytes(b)
  {
    LiveDetermines(a);
    LiveDetermines(b);
  }
}
