/** Runs of `memwatch.c`: which blocks are live after any sequence of calls, and two heaps
    on which the code answers wrongly. */
module MwRuns {
  import opened Sequences
  import opened MwChain
  import opened MwHeap

  // One call of a client; blocks are named by the position of the call's answer among
  // the answers so far.
  datatype Call =
    | CallMalloc(size: nat, overhead: nat, mem: Memory)
    | CallRealloc(i: nat, size: nat, overhead: nat, mem: Memory)
    | CallFree(i: nat)
    | CallFreeUp(needed: nat, probe: nat -> bool)

  // Sizes are sizes, and the allocator never hands out 2^63 bytes or more.
  predicate CallOk(c: Call) {
    match c
    case CallMalloc(size, overhead, mem) =>
      size < SIZES && 0 < overhead < SIZES && (mem.first || mem.second ==> size < LONGS)
    case CallRealloc(_, size, overhead, mem) =>
      size < SIZES && 0 < overhead < SIZES && (mem.first || mem.second ==> size < LONGS)
    case _ => true
  }

  // The size a call asks for.
  function SizeOf(c: Call): nat {
    match c
    case CallMalloc(size, _, _) => size
    case CallRealloc(_, size, _, _) => size
    case _ => 0
  }

  // ---------- who holds what ----------

  // The positions of the calls whose answers nobody has given back, after one more call;
  // `got` and `now` say which calls were answered with a block.
  function LiveNext(l: set<nat>, c: Call, got: seq<bool>, now: bool): set<nat> {
    var n := |got|;
    match c
    case CallMalloc(_, _, _) => if now then l + {n} else l
    case CallRealloc(i, size, _, _) =>
      if !(i < n && got[i]) then if now then l + {n} else l
      else if size == 0 then l - {i}
      else if now then l - {i} + {n} else l
    case CallFree(i) => l - {i}
    case CallFreeUp(_, _) => l
  }

  function LiveAfter(calls: seq<Call>, got: seq<bool>): set<nat>
    requires |calls| == |got|
    decreases |calls|
  {
    if calls == [] then {}
    else
      var n := |calls| - 1;
      LiveNext(LiveAfter(calls[..n], got[..n]), calls[n], got[..n], got[n])
  }

  // The blocks asked for by the calls at these positions.
  function Held(calls: seq<Call>, l: set<nat>): multiset<Info>
    decreases |calls|
  {
    if calls == [] then multiset{}
    else
      var n := |calls| - 1;
      Held(calls[..n], l) + if n in l then multiset{Info(SizeOf(calls[n]), false)} else multiset{}
  }

  lemma {:induction false} HeldSame(calls: seq<Call>, l: set<nat>, m: set<nat>)
    requires forall i :: 0 <= i < |calls| ==> (i in l <==> i in m)
    ensures Held(calls, l) == Held(calls, m)
    decreases |calls|
  {
    if calls != [] {
      HeldSame(calls[..|calls| - 1], l, m);
    }
  }

  lemma {:induction false} HeldRemove(calls: seq<Call>, l: set<nat>, i: nat)
    requires i < |calls| && i in l
    ensures Held(calls, l) == Held(calls, l - {i}) + multiset{Info(SizeOf(calls[i]), false)}
    decreases |calls|
  {
    var n := |calls| - 1;
    if i == n {
      HeldSame(calls[..n], l, l - {i});
    } else {
      HeldRemove(calls[..n], l, i);
    }
  }

  // One more call.
  lemma HeldNext(calls: seq<Call>, l: set<nat>, m: set<nat>)
    requires calls != [] && forall i :: 0 <= i < |calls| - 1 ==> (i in l <==> i in m)
    ensures var n := |calls| - 1;
            Held(calls, m) == Held(calls[..n], l) + if n in m then multiset{Info(SizeOf(calls[n]), false)} else multiset{}
  {
    HeldSame(calls[..|calls| - 1], l, m);
  }

  function AnswerSet(answers: seq<Block?>): set<Block> {
    set b: Block | b in answers
  }

  function Got(answers: seq<Block?>): seq<bool> {
    seq(|answers|, i requires 0 <= i < |answers| => answers[i] != null)
  }

  ghost predicate IsLive(h: Heap, b: Block)
    reads h, b
  {
    b in h.xs && !b.nml
  }

  // What every block handed out is later: a block of the chain, overwritten, or
  // released no-mans-land.
  ghost predicate Harmless(h: Heap, answers: seq<Block?>)
    reads h, h.xs, AnswerSet(answers)
  {
    forall b: Block :: b in answers ==> b in h.xs || !b.check || b.nml
  }

  // The answers are different blocks of the sizes asked for, and the live ones among them
  // are those at the positions in l.
  ghost predicate Tracks(h: Heap, calls: seq<Call>, answers: seq<Block?>, l: set<nat>)
    requires |answers| == |calls|
    reads h, AnswerSet(answers)
  {
    && (forall i :: i in l ==> i < |answers| && answers[i] != null)
    && (forall i :: 0 <= i < |answers| && answers[i] != null ==>
          (i in l <==> IsLive(h, answers[i])) && answers[i].size == SizeOf(calls[i]))
    && (forall i, j :: 0 <= i < j < |answers| && answers[i] != null ==> answers[i] != answers[j])
  }

  // The block a call names, and whether the call gives it back.
  function Named(c: Call, answers: seq<Block?>): Block? {
    match c
    case CallRealloc(i, _, _, _) => if i < |answers| then answers[i] else null
    case CallFree(i) => if i < |answers| then answers[i] else null
    case _ => null
  }

  predicate GivesBack(c: Call, answer: Block?) {
    c.CallFree? || (c.CallRealloc? && (c.size == 0 || answer != null))
  }

  // Every run of calls, with every behaviour of the allocator below, every mixture of
  // valid, NULL and already freed blocks, and whatever other memory can still be
  // read, keeps the chain and the accounting right and a met limit met; the blocks handed
  // out that are live are exactly those nobody has given back, and the live blocks are
  // these and the ones that were live before.  So it is for all beginnings of the run,
  // which are runs themselves.  Without a limit, and where the allocator says yes at once,
  // a call is answered with a block exactly when it should be.
  method RunCalls(h: Heap, calls: seq<Call>) returns (answers: seq<Block?>)
    requires h.Valid() && h.Within() && forall c :: c in calls ==> CallOk(c)
    modifies h, BlockSet(h.xs)`prev, BlockSet(h.xs)`next
    ensures h.Valid() && h.Within()
    ensures h.useLimit == old(h.useLimit) && h.limit == old(h.limit)
    ensures h.numCur == LiveCount(h.v) && h.statCur == LiveBytes(h.v)
    ensures |answers| == |calls| && Tracks(h, calls, answers, LiveAfter(calls, Got(answers)))
    ensures multiset(Live(h.v)) == multiset(old(Live(h.v))) + Held(calls, LiveAfter(calls, Got(answers)))
    ensures !h.useLimit ==> Answered(calls, Got(answers))
  {
    hide LiveCount, LiveBytes, Live, IsChain, Describes, AllIn, Tracks, Held, LiveNext, Got;
    answers := [];
    ghost var l: set<nat> := {};
    NothingHeld(h);
    assert calls[..0] == [];
    for n := 0 to |calls|
      invariant h.Valid() && h.Within() && h.useLimit == old(h.useLimit) && h.limit == old(h.limit)
      invariant forall b :: b in h.xs ==> b in old(h.xs) || fresh(b)
      invariant |answers| == n && forall b: Block :: b in answers ==> fresh(b)
      invariant Harmless(h, answers) && Tracks(h, calls[..n], answers, l)
      invariant |Got(answers)| == n && l == LiveAfter(calls[..n], Got(answers))
      invariant multiset(Live(h.v)) == multiset(old(Live(h.v))) + Held(calls[..n], l)
      invariant !h.useLimit ==> Answered(calls[..n], Got(answers))
    {
      var readable: set<Block> := *;
      ghost var was := multiset(Live(h.v));
      assert calls[..n + 1][..n] == calls[..n];
      var answer := Round(h, calls[..n + 1], answers, l, readable);
      GotNext(answers, answer);
      if !h.useLimit {
        AnsweredNext(calls[..n + 1], Got(answers), answer != null);
      }
      Settle(multiset(old(Live(h.v))), was, Held(calls[..n], l), multiset(Live(h.v)),
             Held(calls[..n + 1], LiveNext(l, calls[n], Got(answers), answer != null)));
      l := LiveNext(l, calls[n], Got(answers), answer != null);
      answers := answers + [answer];
    }
    assert calls[..|calls|] == calls;
  }

  // A call that asks the allocator for something it gives at once.
  predicate Willing(c: Call) {
    (c.CallMalloc? || c.CallRealloc?) && c.mem.first && c.size + c.overhead < SIZES
  }

  // Such a call gets a block unless it is a realloc of a block that has been given back, or
  // of a held one to size 0.
  predicate Granted(c: Call, l: set<nat>, got: seq<bool>) {
    c.CallRealloc? && c.i < |got| && got[c.i] ==> c.i in l && c.size > 0
  }

  predicate Answered(calls: seq<Call>, got: seq<bool>)
    requires |calls| == |got|
  {
    forall n :: 0 <= n < |calls| && Willing(calls[n]) ==>
      (got[n] <==> Granted(calls[n], LiveAfter(calls[..n], got[..n]), got[..n]))
  }

  lemma AnsweredNext(calls: seq<Call>, got: seq<bool>, now: bool)
    requires calls != [] && |got| == |calls| - 1 && Answered(calls[..|got|], got)
    requires var c := calls[|got|]; Willing(c) ==> (now <==> Granted(c, LiveAfter(calls[..|got|], got), got))
    ensures Answered(calls, got + [now])
  {
    hide LiveAfter, Willing, Granted;
    var m := |got|;
    forall n | 0 <= n < |calls| && Willing(calls[n])
      ensures (got + [now])[n] <==> Granted(calls[n], LiveAfter(calls[..n], (got + [now])[..n]), (got + [now])[..n])
    {
      assert n < m ==> calls[..m][n] == calls[n] && calls[..m][..n] == calls[..n] && (got + [now])[..n] == got[..n];
      assert n == m ==> (got + [now])[..n] == got;
    }
  }

  lemma NothingHeld(h: Heap)
    ensures Tracks(h, [], [], {}) && Held([], {}) == multiset{} && LiveAfter([], []) == {} && Got([]) == []
    ensures Answered([], [])
  {
  }

  lemma GotNext(answers: seq<Block?>, answer: Block?)
    ensures |Got(answers)| == |answers|
    ensures Got(answers + [answer]) == Got(answers) + [answer != null]
    ensures Got(answers + [answer])[..|answers|] == Got(answers)
  {
  }

  lemma Settle(start: multiset<Info>, was: multiset<Info>, held: multiset<Info>, r: multiset<Info>, now: multiset<Info>)
    requires was == start + held && r + held == was + now
    ensures r == start + now
  {
    forall x
      ensures r[x] == (start + now)[x]
    {
      assert (r + held)[x] == (was + now)[x];
    }
  }

  // The call gives back a block that was held.
  predicate TakesBack(c: Call, l: set<nat>, now: bool) {
    (c.CallFree? || (c.CallRealloc? && (c.size == 0 || now))) && c.i in l
  }

  lemma NextMembers(l: set<nat>, c: Call, got: seq<bool>, now: bool)
    requires forall i :: i in l ==> i < |got| && got[i]
    requires now ==> c.CallMalloc? || (c.CallRealloc? && !(c.i < |got| && got[c.i] && c.size == 0))
    ensures var m := LiveNext(l, c, got, now);
            && (|got| in m <==> now) && (forall i :: i in m ==> i <= |got|)
            && forall i :: 0 <= i < |got| ==> (i in m <==> i in l && !(TakesBack(c, l, now) && i == c.i))
  {
  }

  // What the call gives back leaves the blocks that are held, and its answer joins them.
  lemma NextHeld(calls: seq<Call>, l: set<nat>, got: seq<bool>, now: bool)
    requires calls != [] && |got| == |calls| - 1
    requires forall i :: i in l ==> i < |got| && got[i]
    requires var c := calls[|got|]; now ==> c.CallMalloc? || (c.CallRealloc? && !(c.i < |got| && got[c.i] && c.size == 0))
    ensures var n, c := |got|, calls[|got|];
            Held(calls[..n], l) + (if now then multiset{Info(SizeOf(c), false)} else multiset{})
            == Held(calls, LiveNext(l, c, got, now))
               + if TakesBack(c, l, now) then multiset{Info(SizeOf(calls[c.i]), false)} else multiset{}
  {
    hide Held, LiveNext;
    var n, c := |got|, calls[|got|];
    NextMembers(l, c, got, now);
    if TakesBack(c, l, now) {
      HeldRemove(calls[..n], l, c.i);
      HeldNext(calls, l - {c.i}, LiveNext(l, c, got, now));
    } else {
      HeldNext(calls, l, LiveNext(l, c, got, now));
    }
  }

  // The last of the calls, and who holds what afterwards.
  method Round(h: Heap, calls: seq<Call>, answers: seq<Block?>, ghost l: set<nat>, readable: set<Block>) returns (answer: Block?)
    requires calls != [] && |answers| == |calls| - 1 && CallOk(calls[|answers|])
    requires h.Valid() && h.Within() && Harmless(h, answers) && Tracks(h, calls[..|answers|], answers, l)
    modifies h, BlockSet(h.xs)`prev, BlockSet(h.xs)`next, AnswerSet(answers)
    ensures h.Valid() && h.Within() && h.useLimit == old(h.useLimit) && h.limit == old(h.limit)
    ensures forall b :: b in h.xs ==> b in old(h.xs) || fresh(b)
    ensures answer != null ==> fresh(answer)
    ensures Harmless(h, answers + [answer])
    ensures |Got(answers)| == |answers|
    ensures !h.useLimit && Willing(calls[|answers|]) ==> (answer != null <==> Granted(calls[|answers|], l, Got(answers)))
    ensures var m := LiveNext(l, calls[|answers|], Got(answers), answer != null);
            && Tracks(h, calls, answers + [answer], m)
            && multiset(Live(h.v)) + Held(calls[..|answers|], l) == multiset(old(Live(h.v))) + Held(calls, m)
  {
    hide LiveCount, LiveBytes, Live, IsChain, Describes, AllIn, Held, Harmless, CallOk, LiveNext;
    var n := |answers|;
    ghost var was := multiset(Live(h.v));
    answer := Perform(h, calls[n], answers, readable);
    GotNext(answers, answer);
    NextMembers(l, calls[n], Got(answers), answer != null);
    NextHeld(calls, l, Got(answers), answer != null);
    ghost var given := if answer != null then multiset{Info(SizeOf(calls[n]), false)} else multiset{};
    ghost var back := if TakesBack(calls[n], l, answer != null) then multiset{Info(SizeOf(calls[calls[n].i]), false)} else multiset{};
    assert multiset(Live(h.v)) + back == was + given;
    Exchange(multiset(Live(h.v)), back, was, given, Held(calls[..n], l), Held(calls, LiveNext(l, calls[n], Got(answers), answer != null)));
  }

  lemma Exchange(r: multiset<Info>, back: multiset<Info>, was: multiset<Info>, given: multiset<Info>, held: multiset<Info>, now: multiset<Info>)
    requires r + back == was + given && held + given == now + back
    ensures r + held == was + now
  {
    forall x
      ensures (r + held)[x] == (was + now)[x]
    {
      assert (r + back)[x] == (was + given)[x] && (held + given)[x] == (now + back)[x];
    }
  }

  // One call, while the blocks of the chain and some others can be read.
  method Perform(h: Heap, call: Call, answers: seq<Block?>, readable: set<Block>) returns (answer: Block?)
    requires h.Valid() && h.Within() && CallOk(call) && Harmless(h, answers)
    modifies h, BlockSet(h.xs)`prev, BlockSet(h.xs)`next, AnswerSet(answers)
    ensures h.Valid() && h.Within() && h.useLimit == old(h.useLimit) && h.limit == old(h.limit)
    ensures forall b :: b in h.xs ==> b in old(h.xs) || fresh(b)
    ensures answer != null ==> (call.CallMalloc? || call.CallRealloc?) && fresh(answer) && IsLive(h, answer) && answer.size == SizeOf(call)
    ensures answer != null && Named(call, answers) != null ==> SizeOf(call) > 0
    ensures !h.useLimit && Willing(call) ==>
              (answer != null <==> Named(call, answers) == null || (old(IsLive(h, Named(call, answers))) && call.size > 0))
    ensures Harmless(h, answers + [answer])
    ensures forall b: Block :: b in answers ==>
              b.size == old(b.size) && (IsLive(h, b) <==> old(IsLive(h, b)) && !(b == Named(call, answers) && GivesBack(call, answer)))
    ensures var p := Named(call, answers);
            multiset(Live(h.v)) + (if p != null && old(IsLive(h, p)) && GivesBack(call, answer) then multiset{Info(p.size, false)} else multiset{})
            == multiset(old(Live(h.v))) + if answer != null then multiset{Info(answer.size, false)} else multiset{}
  {
    hide LiveCount, LiveBytes, Live, IsChain, Describes, AllIn;
    answer := null;
    match call {
      case CallMalloc(size, overhead, mem) =>
        answer := PerformMalloc(h, call, answers);
      case CallRealloc(i, size, overhead, mem) =>
        answer := PerformRealloc(h, call, answers, readable);
      case CallFree(i) =>
        PerformFree(h, call, answers, readable);
      case CallFreeUp(needed, probe) =>
        var r := h.FreeUp(needed, probe);
        LiveDecides(h.v, old(h.v));
    }
  }

  method PerformMalloc(h: Heap, call: Call, answers: seq<Block?>) returns (answer: Block?)
    requires h.Valid() && h.Within() && CallOk(call) && call.CallMalloc? && Harmless(h, answers)
    modifies h, BlockSet(h.xs)`prev, BlockSet(h.xs)`next
    ensures h.Valid() && h.Within() && h.useLimit == old(h.useLimit) && h.limit == old(h.limit)
    ensures forall b :: b in h.xs ==> b in old(h.xs) || fresh(b)
    ensures answer != null ==> fresh(answer) && IsLive(h, answer) && answer.size == call.size
    ensures !h.useLimit && Willing(call) ==> answer != null
    ensures Harmless(h, answers + [answer])
    ensures forall b: Block :: b in answers ==> (IsLive(h, b) <==> old(IsLive(h, b)))
    ensures multiset(Live(h.v)) == multiset(old(Live(h.v))) + if answer != null then multiset{Info(answer.size, false)} else multiset{}
  {
    hide LiveCount, LiveBytes, Live, IsChain, Describes, AllIn;
    answer := h.Malloc(call.size, call.overhead, call.mem);
  }

  method PerformRealloc(h: Heap, call: Call, answers: seq<Block?>, readable: set<Block>) returns (answer: Block?)
    requires h.Valid() && h.Within() && CallOk(call) && call.CallRealloc? && Harmless(h, answers)
    modifies h, BlockSet(h.xs)`prev, BlockSet(h.xs)`next, AnswerSet(answers)
    ensures h.Valid() && h.Within() && h.useLimit == old(h.useLimit) && h.limit == old(h.limit)
    ensures forall b :: b in h.xs ==> b in old(h.xs) || fresh(b)
    ensures answer != null ==> (call.CallMalloc? || call.CallRealloc?) && fresh(answer) && IsLive(h, answer) && answer.size == SizeOf(call)
    ensures answer != null && Named(call, answers) != null ==> SizeOf(call) > 0
    ensures !h.useLimit && Willing(call) ==>
              (answer != null <==> Named(call, answers) == null || (old(IsLive(h, Named(call, answers))) && call.size > 0))
    ensures Harmless(h, answers + [answer])
    ensures forall b: Block :: b in answers ==>
              b.size == old(b.size) && (IsLive(h, b) <==> old(IsLive(h, b)) && !(b == Named(call, answers) && GivesBack(call, answer)))
    ensures var p := Named(call, answers);
            multiset(Live(h.v)) + (if p != null && old(IsLive(h, p)) && GivesBack(call, answer) then multiset{Info(p.size, false)} else multiset{})
            == multiset(old(Live(h.v))) + if answer != null then multiset{Info(answer.size, false)} else multiset{}
  {
    hide LiveCount, LiveBytes, Live, IsChain, Describes, AllIn;
    var p := Named(call, answers);
    var safe := h.Blocks();
    HarmlessTouches(h, answers, p, safe, readable);
    answer := ReallocBalanced(h, p, call, safe + readable);
  }

  // Reallocating a block that is no foreign one, with the balance of the live blocks.
  method ReallocBalanced(h: Heap, p: Block?, call: Call, safe: set<Block>) returns (q: Block?)
    requires h.Valid() && h.Within() && CallOk(call) && call.CallRealloc? && AllIn(h.xs, safe) && !h.Ruinous(p, safe)
    modifies h, BlockSet(h.xs)`prev, BlockSet(h.xs)`next, Only(p), h.Touched(p, safe)`prev, h.Touched(p, safe)`next
    ensures h.Valid() && h.Within() && h.useLimit == old(h.useLimit) && h.limit == old(h.limit)
    ensures q != null ==> fresh(q) && IsLive(h, q) && q.size == call.size && (p != null ==> call.size > 0)
    ensures !h.useLimit && Willing(call) ==> (q != null <==> p == null || (old(IsLive(h, p)) && call.size > 0))
    ensures forall b :: b in h.xs ==> b in old(h.xs) || fresh(b)
    ensures forall b :: b in old(h.xs) && b != p && !b.nml ==> b in h.xs
    ensures p != null ==> p.size == old(p.size) && (p in h.xs || p.nml || !p.check || old(p !in h.xs))
    ensures p != null ==> (old(p.nml) ==> p.nml) && (p.check ==> old(p.check))
    ensures p != null ==> (IsLive(h, p) <==> old(IsLive(h, p)) && !GivesBack(call, q))
    ensures multiset(Live(h.v)) + (if p != null && old(IsLive(h, p)) && GivesBack(call, q) then multiset{Info(p.size, false)} else multiset{})
         == multiset(old(Live(h.v))) + if q != null then multiset{Info(q.size, false)} else multiset{}
  {
    hide LiveCount, LiveBytes, Live, IsChain, Describes, AllIn;
    LiveNamed(h, p);
    q := h.Realloc(p, call.size, call.overhead, call.mem, safe);
  }

  method PerformFree(h: Heap, call: Call, answers: seq<Block?>, readable: set<Block>)
    requires h.Valid() && h.Within() && call.CallFree? && Harmless(h, answers)
    modifies h, BlockSet(h.xs)`prev, BlockSet(h.xs)`next, AnswerSet(answers)
    ensures h.Valid() && h.Within() && h.useLimit == old(h.useLimit) && h.limit == old(h.limit)
    ensures forall b :: b in h.xs ==> b in old(h.xs)
    ensures Harmless(h, answers)
    ensures forall b: Block :: b in answers ==>
              b.size == old(b.size) && (IsLive(h, b) <==> old(IsLive(h, b)) && b != Named(call, answers))
    ensures var p := Named(call, answers);
            multiset(Live(h.v)) + (if p != null && old(IsLive(h, p)) then multiset{Info(p.size, false)} else multiset{})
            == multiset(old(Live(h.v)))
  {
    hide LiveCount, LiveBytes, Live, IsChain, Describes, AllIn;
    var p := Named(call, answers);
    var safe := h.Blocks();
    HarmlessTouches(h, answers, p, safe, readable);
    LiveNamed(h, p);
    h.Free(p, safe + readable);
  }

  // The block named is among the live ones, if it is live.
  lemma LiveNamed(h: Heap, p: Block?)
    requires h.Valid()
    ensures p != null && IsLive(h, p) ==>
              var m := multiset(Live(h.v)); m - multiset{Info(p.size, false)} + multiset{Info(p.size, false)} == m
  {
    hide LiveCount, LiveBytes, Live;
    if p != null && IsLive(h, p) {
      h.LiveMember(p);
    }
  }

  lemma HarmlessTouches(h: Heap, answers: seq<Block?>, p: Block?, safe: set<Block>, readable: set<Block>)
    requires h.Valid() && AllIn(h.xs, safe) && Harmless(h, answers) && (p == null || p in answers)
    ensures AllIn(h.xs, safe + readable)
    ensures !h.Ruinous(p, safe + readable) && h.Touched(p, safe + readable) <= BlockSet(h.xs)
  {
    hide LiveCount, LiveBytes;
    if p != null && p in h.xs {
      var k :| 0 <= k < |h.xs| && h.xs[k] == p;
      NeighboursInChain(h.xs, h.head, h.tail, k);
    }
  }

  // A foreign block that can be read and passes the checksum: freeing it takes a live
  // block out of the count that nobody has freed.
  method WildFree() returns (h: Heap)
    ensures LiveCount(h.v) == 1 && h.numCur == 0
  {
    hide LiveCount, LiveBytes, Live, IsChain, Describes, AllIn;
    h := new Heap();
    NoLive();
    var p := h.Malloc(8, 64, Memory(true, i => true, true));
    LiveDetermines(h.v);
    MembersSafe(h.xs, {p});
    var wild := new Block(null, null, 8);
    MembersSafe(h.xs, {p, wild});
    assert h.Ruinous(wild, {p, wild});
    h.Free(wild, {p, wild});
  }

  // The heap of two blocks, the older one retained, repaired after both links of the other
  // have been overwritten: perfectly, and the answer is no.
  method RepairedButNo() returns (h: Heap, out: Outcome)
    ensures h.Valid() && out == Done(false)
  {
    hide LiveCount, LiveBytes, Live, IsChain, Describes, DamagedAt, AllIn;
    h := new Heap();
    var a := h.Malloc(8, 64, Memory(true, i => true, true));
    var b := h.Malloc(8, 64, Memory(true, i => true, true));
    h.keepNml := true;
    var safe := {a, b} + {};
    MembersSafe(h.xs, safe);
    MembersSafe(h.xs, {a, b});
    HarmlessTouches(h, [a], a, {a, b}, {});
    h.Free(a, safe);
    MembersSafe(h.xs, safe);
    OverwriteLinks(h, b, a, b, safe);
    out := h.Repair(b, safe);
    NoneKeptInfo(h.xs, h.v);
  }

  // Overwriting both links of a block of the chain is damage that Repair is for.
  method OverwriteLinks(h: Heap, mw: Block, p: Block?, n: Block?, ghost safe: set<Block>)
    requires h.Valid() && AllIn(h.xs, safe) && mw in h.xs
    modifies mw`prev, mw`next
    ensures DamagedAt(h.xs, mw, h.head, h.tail, safe)
    ensures |h.v| == |h.xs| && forall i :: 0 <= i < |h.xs| ==> h.xs[i].size == h.v[i].size && h.xs[i].nml == h.v[i].nml
    ensures forall b :: b in h.xs ==> b.check
    ensures h.numCur == LiveCount(h.v) && h.statCur == LiveBytes(h.v)
  {
    hide LiveCount, LiveBytes, IsChain, DamagedAt;
    OverwriteBoth(mw, p, n, h.xs, h.head, h.tail, safe);
  }

  method OverwriteBoth(mw: Block, p: Block?, n: Block?, ghost xs: seq<Block>, ghost head: Block?, ghost tail: Block?, ghost safe: set<Block>)
    requires IsChain(xs, head, tail) && AllIn(xs, safe) && mw in xs
    modifies mw`prev, mw`next
    ensures DamagedAt(xs, mw, head, tail, safe)
  {
    hide Distinct, AllIn;
    mw.prev, mw.next := p, n;
  }
}
