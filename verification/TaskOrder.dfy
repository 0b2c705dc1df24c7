/** The pool's task order as values: the priority ring with its four-entry segment
    index, and the ring of scheduled tasks.  The heap version in `TaskQueue` is
    proved to compute exactly these functions. */
module TaskOrder {

  // One task.  `priority` and `time` are the two readings of the `dispatch` union.
  datatype Task = Task(func: int, flag: int, param: int, owner: int, priority: int, time: int)

  const SEGS := 4

  // TASK_PRIORITY_SEG: the low byte of the priority, in steps of 64.
  function Seg(t: Task): (s: int)
    ensures 0 <= s < SEGS
  {
    (t.priority % 256) / 64
  }

  // The priority ring `q`, front first, and `idx[s]`: the position `task_idx[s]`
  // points to, or -1 for NULL.
  datatype PQ = PQ(q: seq<Task>, idx: seq<int>)

  const EMPTY := PQ([], [-1, -1, -1, -1])

  // What holds of the index whatever the priorities: it never dangles.
  ghost predicate Indexed(pq: PQ) {
    && |pq.idx| == SEGS
    && forall s :: 0 <= s < SEGS ==>
         -1 <= pq.idx[s] < |pq.q| && (pq.idx[s] >= 0 ==> Seg(pq.q[pq.idx[s]]) == s)
  }

  // ---------- the operations, as the code performs them ----------

  // add_if_empty: walk past the strictly greater priorities.
  function SkipGreater(q: seq<Task>, i: nat, p: int): (j: nat)
    requires i <= |q|
    ensures i <= j <= |q|
    ensures forall m :: i <= m < j ==> q[m].priority > p
    ensures j < |q| ==> q[j].priority <= p
    decreases |q| - i
  {
    if i < |q| && q[i].priority > p then SkipGreater(q, i + 1, p) else i
  }

  // add_task with push: walk past the priorities that are not smaller.
  function SkipGeq(q: seq<Task>, i: nat, p: int): (j: nat)
    requires i <= |q|
    ensures i <= j <= |q|
    ensures forall m :: i <= m < j ==> q[m].priority >= p
    ensures j < |q| ==> q[j].priority < p
    decreases |q| - i
  {
    if i < |q| && q[i].priority >= p then SkipGeq(q, i + 1, p) else i
  }

  // add_if_empty with no task in the segment: the head of the nearest lower segment.
  function LowerHead(pq: PQ, next: int): (j: int)
    requires Indexed(pq) && next < SEGS
    ensures 0 <= j <= |pq.q|
    decreases next
  {
    if next < 0 then |pq.q|
    else if pq.idx[next] >= 0 then pq.idx[next]
    else LowerHead(pq, next - 1)
  }

  // The position in the ring at which add_task inserts `t`.
  function AddPos(pq: PQ, t: Task, push: bool): (j: nat)
    requires Indexed(pq)
    ensures j <= |pq.q|
  {
    var head := pq.idx[Seg(t)];
    if head >= 0 then
      var j := SkipGreater(pq.q, head, t.priority);
      if push then SkipGeq(pq.q, j, t.priority) else j
    else
      LowerHead(pq, Seg(t) - 1)
  }

  // Positions at or after an insertion point move up by one.
  function ShiftUp(idx: seq<int>, j: int): (r: seq<int>)
    ensures |r| == |idx|
    ensures forall s :: 0 <= s < |idx| ==> r[s] == (if idx[s] >= j then idx[s] + 1 else idx[s])
  {
    seq(|idx|, s requires 0 <= s < |idx| => if idx[s] >= j then idx[s] + 1 else idx[s])
  }

  // add_task: only an insertion into an empty segment, or a top in front of the
  // segment's head, re-points the index.
  function Add(pq: PQ, t: Task, push: bool): (r: PQ)
    requires Indexed(pq)
  {
    var head, j := pq.idx[Seg(t)], AddPos(pq, t, push);
    var idx := ShiftUp(pq.idx, j);
    PQ(pq.q[..j] + [t] + pq.q[j..],
       if head < 0 || (!push && j == head) then idx[Seg(t) := j] else idx)
  }

  // Taking out the task at position i, as pop_task and remove_tasks do.
  function RemoveAt(pq: PQ, i: nat): (r: PQ)
    requires Indexed(pq) && i < |pq.q|
  {
    PQ(pq.q[..i] + pq.q[i + 1..],
       seq(SEGS, s requires 0 <= s < SEGS =>
         if pq.idx[s] == i then
           (if i + 1 < |pq.q| && Seg(pq.q[i + 1]) == s then i else -1)
         else if pq.idx[s] > i then pq.idx[s] - 1
         else pq.idx[s]))
  }

  // remove_tasks from position i on.
  function CancelFrom(pq: PQ, i: nat, owner: int): (r: PQ)
    requires Indexed(pq) && i <= |pq.q|
    ensures Indexed(r)
    decreases |pq.q| - i
  {
    if i == |pq.q| then pq
    else if pq.q[i].owner == owner then
      RemoveAtIndexed(pq, i);
      CancelFrom(RemoveAt(pq, i), i, owner)
    else CancelFrom(pq, i + 1, owner)
  }

  lemma RemoveAtIndexed(pq: PQ, i: nat)
    requires Indexed(pq) && i < |pq.q|
    ensures Indexed(RemoveAt(pq, i))
  {
    var r := RemoveAt(pq, i);
    forall s | 0 <= s < SEGS
      ensures -1 <= r.idx[s] < |r.q| && (r.idx[s] >= 0 ==> Seg(r.q[r.idx[s]]) == s)
    {
      assert r.idx[s] >= 0 && r.idx[s] < i ==> r.q[r.idx[s]] == pq.q[r.idx[s]];
      assert r.idx[s] >= i ==> r.q[r.idx[s]] == pq.q[r.idx[s] + 1];
    }
  }

  lemma AddIndexed(pq: PQ, t: Task, push: bool)
    requires Indexed(pq)
    ensures Indexed(Add(pq, t, push))
  {
    var r, j := Add(pq, t, push), AddPos(pq, t, push);
    forall s | 0 <= s < SEGS
      ensures -1 <= r.idx[s] < |r.q| && (r.idx[s] >= 0 ==> Seg(r.q[r.idx[s]]) == s)
    {
      assert 0 <= pq.idx[s] < j ==> r.q[pq.idx[s]] == pq.q[pq.idx[s]];
      assert pq.idx[s] >= j ==> r.q[pq.idx[s] + 1] == pq.q[pq.idx[s]];
    }
  }

  // ---------- the promised order ----------

  ghost predicate InRange(t: Task) {
    0 <= t.priority <= 255
  }

  ghost predicate Sorted(q: seq<Task>) {
    forall i, j :: 0 <= i < j < |q| ==> q[i].priority >= q[j].priority
  }

  // `h` is the position of the first task of segment s, or -1 when there is none.
  ghost predicate IsHead(q: seq<Task>, s: int, h: int) {
    if h < 0 then h == -1 && forall m :: 0 <= m < |q| ==> Seg(q[m]) != s
    else h < |q| && Seg(q[h]) == s && forall m :: 0 <= m < h ==> Seg(q[m]) != s
  }

  // The state in which the ring is the priority queue its index says it is.
  ghost predicate WellIndexed(pq: PQ) {
    && |pq.idx| == SEGS
    && Sorted(pq.q)
    && (forall m :: 0 <= m < |pq.q| ==> InRange(pq.q[m]))
    && (forall s :: 0 <= s < SEGS ==> IsHead(pq.q, s, pq.idx[s]))
  }

  // A push strictly above the current head of its segment is the one case in
  // which add_task leaves the index behind.
  predicate PushOk(pq: PQ, t: Task)
    requires Indexed(pq)
  {
    var head := pq.idx[Seg(t)];
    head >= 0 ==> t.priority <= pq.q[head].priority
  }

  lemma WellIndexedIsIndexed(pq: PQ)
    requires WellIndexed(pq)
    ensures Indexed(pq)
  {
    forall s | 0 <= s < SEGS
      ensures -1 <= pq.idx[s] < |pq.q| && (pq.idx[s] >= 0 ==> Seg(pq.q[pq.idx[s]]) == s)
    {
      assert IsHead(pq.q, s, pq.idx[s]);
    }
  }

  // Where the index skips to, nothing was skipped over that mattered: the walk
  // from the segment head finds the place a walk from the front would find.
  lemma SegmentsAreOrdered(a: Task, b: Task)
    requires InRange(a) && InRange(b)
    ensures Seg(a) > Seg(b) ==> a.priority > b.priority
    ensures a.priority >= b.priority ==> Seg(a) >= Seg(b)
  {
  }

  lemma LowerHeadSplits(pq: PQ, t: Task, next: int)
    requires WellIndexed(pq) && Indexed(pq) && InRange(t) && -1 <= next < Seg(t)
    requires pq.idx[Seg(t)] < 0
    requires forall m :: 0 <= m < |pq.q| ==> !(next < Seg(pq.q[m]) <= Seg(t))
    ensures var j := LowerHead(pq, next);
            && (forall m :: 0 <= m < j ==> pq.q[m].priority > t.priority)
            && (forall m :: j <= m < |pq.q| ==> pq.q[m].priority < t.priority)
    decreases next
  {
    var j := LowerHead(pq, next);
    if next >= 0 {
      assert IsHead(pq.q, next, pq.idx[next]);
      if pq.idx[next] < 0 {
        LowerHeadSplits(pq, t, next - 1);
        return;
      }
    }
    forall m | 0 <= m < |pq.q|
      ensures m < j ==> pq.q[m].priority > t.priority
      ensures j <= m ==> pq.q[m].priority < t.priority
    {
      SegmentsAreOrdered(pq.q[m], t);
      SegmentsAreOrdered(t, pq.q[m]);
      if next >= 0 {
        SegmentsAreOrdered(pq.q[m], pq.q[j]);
        SegmentsAreOrdered(pq.q[j], pq.q[m]);
      }
    }
  }

  // Where add_task inserts in a well-indexed ring: a push goes behind every equal
  // priority (first in, first out), a top goes in front of them (last in, first out).
  lemma AddSplits(pq: PQ, t: Task, push: bool)
    requires WellIndexed(pq) && InRange(t)
    ensures Indexed(pq)
    ensures var j := AddPos(pq, t, push);
            && (forall m :: 0 <= m < j ==> if push then pq.q[m].priority >= t.priority else pq.q[m].priority > t.priority)
            && (forall m :: j <= m < |pq.q| ==> if push then pq.q[m].priority < t.priority else pq.q[m].priority <= t.priority)
  {
    WellIndexedIsIndexed(pq);
    var head := pq.idx[Seg(t)];
    assert IsHead(pq.q, Seg(t), head);
    if head < 0 {
      LowerHeadSplits(pq, t, Seg(t) - 1);
    } else {
      forall m | 0 <= m < head
        ensures pq.q[m].priority > t.priority
      {
        SegmentsAreOrdered(pq.q[m], pq.q[head]);
        SegmentsAreOrdered(pq.q[m], t);
        SegmentsAreOrdered(t, pq.q[m]);
      }
    }
  }

  // The simple form: insertion into a sorted list, no index.
  function SimpleAdd(q: seq<Task>, t: Task, push: bool): (r: seq<Task>) {
    if q == [] || (if push then q[0].priority < t.priority else q[0].priority <= t.priority) then [t] + q
    else [q[0]] + SimpleAdd(q[1..], t, push)
  }

  lemma {:induction false} SimpleAddAt(q: seq<Task>, t: Task, push: bool, j: nat)
    requires j <= |q|
    requires forall m :: 0 <= m < j ==> if push then q[m].priority >= t.priority else q[m].priority > t.priority
    requires j < |q| ==> if push then q[j].priority < t.priority else q[j].priority <= t.priority
    ensures SimpleAdd(q, t, push) == q[..j] + [t] + q[j..]
  {
    if j > 0 {
      SimpleAddAt(q[1..], t, push, j - 1);
      ConsInsert(q, t, j);
    } else {
      assert q[..j] + [t] + q[j..] == [t] + q;
    }
  }

  lemma ConsInsert(q: seq<Task>, t: Task, j: nat)
    requires 0 < j <= |q|
    ensures [q[0]] + (q[1..][..j - 1] + [t] + q[1..][j - 1..]) == q[..j] + [t] + q[j..]
  {
    assert [q[0]] + q[1..][..j - 1] == q[..j];
    assert q[1..][j - 1..] == q[j..];
  }

  // add_task on a well-indexed ring is the simple insertion, guarded or not.
  lemma AddRefinesSimple(pq: PQ, t: Task, push: bool)
    requires WellIndexed(pq) && InRange(t)
    ensures Indexed(pq) && Add(pq, t, push).q == SimpleAdd(pq.q, t, push)
    ensures Sorted(Add(pq, t, push).q)
  {
    AddSplits(pq, t, push);
    var j := AddPos(pq, t, push);
    SimpleAddAt(pq.q, t, push, j);
    InsertSorted(pq.q, j, t);
  }

  lemma InsertSorted(q: seq<Task>, j: nat, t: Task)
    requires j <= |q| && Sorted(q)
    requires forall m :: 0 <= m < j ==> q[m].priority >= t.priority
    requires forall m :: j <= m < |q| ==> q[m].priority <= t.priority
    ensures Sorted(q[..j] + [t] + q[j..])
  {
    var r := q[..j] + [t] + q[j..];
    forall a, b | 0 <= a < b < |r|
      ensures r[a].priority >= r[b].priority
    {
      assert r[a] == if a < j then q[a] else if a == j then t else q[a - 1];
      assert r[b] == if b < j then q[b] else if b == j then t else q[b - 1];
    }
  }

  // An insertion keeps the index right exactly when it is a top, or a push not strictly
  // above the head of its segment.
  lemma AddKeepsIndexIff(pq: PQ, t: Task, push: bool)
    requires WellIndexed(pq) && InRange(t)
    ensures Indexed(pq)
    ensures WellIndexed(Add(pq, t, push)) <==> !push || PushOk(pq, t)
  {
    AddSplits(pq, t, push);
    AddRefinesSimple(pq, t, push);
    var r, j, head := Add(pq, t, push), AddPos(pq, t, push), pq.idx[Seg(t)];
    assert IsHead(pq.q, Seg(t), head);
    AddMembers(pq, t, push);
    if push && !PushOk(pq, t) {
      assert j <= head;
      assert r.q[j] == t && r.idx[Seg(t)] == head + 1;
      assert !IsHead(r.q, Seg(t), r.idx[Seg(t)]);
    } else {
      forall s | 0 <= s < SEGS
        ensures IsHead(r.q, s, r.idx[s])
      {
        AddKeepsHead(pq, t, push, s);
      }
    }
  }

  lemma AddMembers(pq: PQ, t: Task, push: bool)
    requires Indexed(pq)
    ensures var r, j := Add(pq, t, push), AddPos(pq, t, push);
            forall m :: 0 <= m < |r.q| ==> r.q[m] == if m < j then pq.q[m] else if m == j then t else pq.q[m - 1]
  {
  }

  // The head of segment s after `t` has been linked in at position j.
  lemma HeadAfterInsert(q: seq<Task>, j: nat, t: Task, s: int, h: int)
    requires j <= |q| && IsHead(q, s, h)
    ensures IsHead(q[..j] + [t] + q[j..], s,
                   if s == Seg(t) && (h < 0 || j <= h) then j else if h >= j then h + 1 else h)
  {
    var r := q[..j] + [t] + q[j..];
    assert forall m :: 0 <= m < |r| ==> r[m] == if m < j then q[m] else if m == j then t else q[m - 1];
  }

  lemma AddKeepsHead(pq: PQ, t: Task, push: bool, s: int)
    requires WellIndexed(pq) && InRange(t) && Indexed(pq) && 0 <= s < SEGS
    requires !push || PushOk(pq, t)
    ensures IsHead(Add(pq, t, push).q, s, Add(pq, t, push).idx[s])
  {
    hide IsHead, Sorted, InRange;
    HeadAfterInsert(pq.q, AddPos(pq, t, push), t, s, pq.idx[s]);
  }

  // Removing a task keeps a well-indexed ring well indexed.
  lemma RemoveAtKeepsIndex(pq: PQ, i: nat)
    requires WellIndexed(pq) && i < |pq.q|
    ensures Indexed(pq) && WellIndexed(RemoveAt(pq, i))
  {
    WellIndexedIsIndexed(pq);
    var r := RemoveAt(pq, i);
    forall m | 0 <= m < |r.q|
      ensures r.q[m] == if m < i then pq.q[m] else pq.q[m + 1]
    {
    }
    forall s | 0 <= s < SEGS
      ensures IsHead(r.q, s, r.idx[s])
    {
      RemoveAtKeepsHead(pq, i, s);
    }
  }

  lemma RemoveAtKeepsHead(pq: PQ, i: nat, s: int)
    requires WellIndexed(pq) && Indexed(pq) && i < |pq.q| && 0 <= s < SEGS
    ensures IsHead(RemoveAt(pq, i).q, s, RemoveAt(pq, i).idx[s])
  {
    var r, h := RemoveAt(pq, i), pq.idx[s];
    assert IsHead(pq.q, s, h);
    forall m | 0 <= m < |r.q|
      ensures r.q[m] == if m < i then pq.q[m] else pq.q[m + 1]
    {
    }
    if h == i && r.idx[s] < 0 && i + 1 < |pq.q| {
      forall m | i < m < |pq.q|
        ensures Seg(pq.q[m]) != s
      {
        SegmentsAreOrdered(pq.q[i], pq.q[i + 1]);
        SegmentsAreOrdered(pq.q[i + 1], pq.q[m]);
      }
    }
  }

  // ---------- cancellation ----------

  // The tasks that are not `owner`'s, in their old order.
  function Others(q: seq<Task>, owner: int): (r: seq<Task>) {
    if q == [] then []
    else if q[0].owner == owner then Others(q[1..], owner)
    else [q[0]] + Others(q[1..], owner)
  }

  lemma {:induction false} OthersMembers(q: seq<Task>, owner: int)
    ensures forall t :: t in Others(q, owner) <==> t in q && t.owner != owner
  {
    if q != [] {
      OthersMembers(q[1..], owner);
      assert q == [q[0]] + q[1..];
    }
  }

  // It keeps order and number: a task alone stays or goes by its owner, and two stretches
  // of the ring are treated separately.
  lemma {:induction false} OthersSplits(a: seq<Task>, b: seq<Task>, t: Task, owner: int)
    ensures Others(a + b, owner) == Others(a, owner) + Others(b, owner)
    ensures Others([t], owner) == if t.owner == owner then [] else [t]
  {
    assert [t][1..] == [];
    if a == [] {
      assert a + b == b && [] + Others(b, owner) == Others(b, owner);
    } else {
      OthersSplits(a[1..], b, t, owner);
      assert (a + b)[1..] == a[1..] + b && (a + b)[0] == a[0];
      ConsAppend(a[0], Others(a[1..], owner), Others(b, owner));
    }
  }

  lemma ConsAppend(t: Task, a: seq<Task>, b: seq<Task>)
    ensures [t] + (a + b) == ([t] + a) + b
  {
  }

  // remove_tasks leaves exactly the others' tasks, in order.
  lemma {:induction false} CancelFromIsOthers(pq: PQ, i: nat, owner: int)
    requires Indexed(pq) && i <= |pq.q|
    ensures CancelFrom(pq, i, owner).q == pq.q[..i] + Others(pq.q[i..], owner)
    decreases |pq.q| - i
  {
    hide Indexed;
    if i == |pq.q| {
    } else if pq.q[i].owner == owner {
      RemoveAtIndexed(pq, i);
      var r := RemoveAt(pq, i);
      assert |r.q| == |pq.q| - 1 && r.q[..i] == pq.q[..i] && r.q[i..] == pq.q[i..][1..];
      CancelFromIsOthers(r, i, owner);
    } else {
      CancelFromIsOthers(pq, i + 1, owner);
      assert pq.q[i + 1..] == pq.q[i..][1..];
      var x := Others(pq.q[i + 1..], owner);
      assert pq.q[..i + 1] + x == pq.q[..i] + ([pq.q[i]] + x);
    }
  }

  lemma {:induction false} CancelFromKeepsIndex(pq: PQ, i: nat, owner: int)
    requires WellIndexed(pq) && i <= |pq.q|
    ensures Indexed(pq) && WellIndexed(CancelFrom(pq, i, owner))
    decreases |pq.q| - i
  {
    WellIndexedIsIndexed(pq);
    if i == |pq.q| {
    } else if pq.q[i].owner == owner {
      RemoveAtKeepsIndex(pq, i);
      CancelFromKeepsIndex(RemoveAt(pq, i), i, owner);
    } else {
      CancelFromKeepsIndex(pq, i + 1, owner);
    }
  }

  // ---------- whole runs ----------

  datatype Op = AddOp(t: Task, push: bool) | PopOp | CancelOp(owner: int)

  function Step(pq: PQ, op: Op): (r: PQ)
    requires Indexed(pq)
    ensures Indexed(r)
  {
    match op
    case AddOp(t, push) => AddIndexed(pq, t, push); Add(pq, t, push)
    case PopOp => if pq.q == [] then pq else RemoveAtIndexed(pq, 0); RemoveAt(pq, 0)
    case CancelOp(owner) => CancelFrom(pq, 0, owner)
  }

  function Run(pq: PQ, ops: seq<Op>): (r: PQ)
    requires Indexed(pq)
    ensures Indexed(r)
    decreases |ops|
  {
    if ops == [] then pq else Run(Step(pq, ops[0]), ops[1..])
  }

  // The same run on a plain sorted list.
  function SimpleStep(q: seq<Task>, op: Op): seq<Task> {
    match op
    case AddOp(t, push) => SimpleAdd(q, t, push)
    case PopOp => if q == [] then [] else q[1..]
    case CancelOp(owner) => Others(q, owner)
  }

  function SimpleRun(q: seq<Task>, ops: seq<Op>): seq<Task>
    decreases |ops|
  {
    if ops == [] then q else SimpleRun(SimpleStep(q, ops[0]), ops[1..])
  }

  // Every add of the run has a byte priority, and every push meets the guard.
  ghost predicate Guarded(pq: PQ, ops: seq<Op>)
    requires Indexed(pq)
    decreases |ops|
  {
    ops != [] ==>
      && (ops[0].AddOp? ==> InRange(ops[0].t) && (ops[0].push ==> PushOk(pq, ops[0].t)))
      && Guarded(Step(pq, ops[0]), ops[1..])
  }

  lemma StepRefines(pq: PQ, op: Op)
    requires WellIndexed(pq) && Indexed(pq)
    requires op.AddOp? ==> InRange(op.t) && (op.push ==> PushOk(pq, op.t))
    ensures WellIndexed(Step(pq, op)) && Step(pq, op).q == SimpleStep(pq.q, op)
  {
    match op
    case AddOp(t, push) =>
      AddRefinesSimple(pq, t, push);
      AddKeepsIndexIff(pq, t, push);
    case PopOp =>
      if pq.q != [] {
        RemoveAtKeepsIndex(pq, 0);
      }
    case CancelOp(owner) =>
      CancelFromIsOthers(pq, 0, owner);
      CancelFromKeepsIndex(pq, 0, owner);
  }

  // The indexed ring refines the plain sorted list over every guarded run.
  lemma {:induction false} RunRefines(pq: PQ, ops: seq<Op>)
    requires WellIndexed(pq) && Indexed(pq) && Guarded(pq, ops)
    ensures WellIndexed(Run(pq, ops)) && Run(pq, ops).q == SimpleRun(pq.q, ops)
    decreases |ops|
  {
    if ops != [] {
      StepRefines(pq, ops[0]);
      RunRefines(Step(pq, ops[0]), ops[1..]);
    }
  }

  ghost predicate InRangeOp(op: Op) {
    op.AddOp? ==> InRange(op.t)
  }

  // In every state of the run the ring is sorted and its index right.
  ghost predicate WellIndexedRun(pq: PQ, ops: seq<Op>)
    requires Indexed(pq)
    decreases |ops|
  {
    WellIndexed(pq) && (ops != [] ==> WellIndexedRun(Step(pq, ops[0]), ops[1..]))
  }

  // Over every run with byte priorities, the ring and its index stay right throughout if
  // and only if every push meets the guard.
  lemma {:induction false} RunWellIndexedIff(pq: PQ, ops: seq<Op>)
    requires WellIndexed(pq) && Indexed(pq) && forall op :: op in ops ==> InRangeOp(op)
    ensures WellIndexedRun(pq, ops) <==> Guarded(pq, ops)
    decreases |ops|
  {
    hide WellIndexed, InRange, Step, PushOk, Indexed;
    if ops != [] {
      var op, r := ops[0], Step(pq, ops[0]);
      assert InRangeOp(op);
      StepWellIndexedIff(pq, op);
      assert WellIndexedRun(r, ops[1..]) ==> WellIndexed(r);
      if WellIndexed(r) {
        RunWellIndexedIff(r, ops[1..]);
      }
    }
  }

  lemma StepWellIndexedIff(pq: PQ, op: Op)
    requires WellIndexed(pq) && Indexed(pq) && InRangeOp(op)
    ensures WellIndexed(Step(pq, op)) <==> (op.AddOp? && op.push ==> PushOk(pq, op.t))
  {
    if op.AddOp? {
      AddKeepsIndexIff(pq, op.t, op.push);
    } else {
      StepRefines(pq, op);
    }
  }

  // ---------- the segments as blocks of 64 priorities ----------

  // A byte priority has the number of its block of 64; any other the number its low byte
  // has, also when it is negative.
  lemma SegIsBlock(t: Task, k: int)
    requires 256 * k <= t.priority < 256 * (k + 1)
    ensures Seg(t) == (t.priority - 256 * k) / 64
  {
    assert t.priority / 256 == k && t.priority % 256 == t.priority - 256 * k;
  }

  // A well-indexed ring with the blocks written out: entry s of the index is the first
  // task with a priority in 64 * s .. 64 * s + 63, or -1 when there is none.
  lemma BlocksAreIndexed(pq: PQ, s: int)
    requires WellIndexed(pq) && 0 <= s < 4
    ensures |pq.idx| == 4 && -1 <= pq.idx[s] < |pq.q|
    ensures pq.idx[s] >= 0 ==> 64 * s <= pq.q[pq.idx[s]].priority < 64 * (s + 1)
    ensures forall m :: 0 <= m < |pq.q| && 64 * s <= pq.q[m].priority < 64 * (s + 1) ==> 0 <= pq.idx[s] <= m
  {
    assert IsHead(pq.q, s, pq.idx[s]);
    forall m | 0 <= m < |pq.q|
      ensures Seg(pq.q[m]) == pq.q[m].priority / 64
    {
      SegIsBlock(pq.q[m], 0);
    }
  }

  // A push keeps the ring well indexed if and only if no queued task lies in its block
  // of 64, or one that does is not smaller; a top always does.
  lemma PushKeepsBlocksIff(pq: PQ, t: Task)
    requires WellIndexed(pq) && 0 <= t.priority <= 255
    ensures Indexed(pq) && WellIndexed(Add(pq, t, false))
    ensures WellIndexed(Add(pq, t, true)) <==>
              || (forall u :: u in pq.q ==> u.priority / 64 != t.priority / 64)
              || (exists u :: u in pq.q && u.priority / 64 == t.priority / 64 && u.priority >= t.priority)
  {
    AddKeepsIndexIff(pq, t, true);
    AddKeepsIndexIff(pq, t, false);
    GuardInBlocks(pq, t);
  }

  lemma GuardInBlocks(pq: PQ, t: Task)
    requires WellIndexed(pq) && Indexed(pq) && 0 <= t.priority <= 255
    ensures PushOk(pq, t) <==>
              || (forall u :: u in pq.q ==> u.priority / 64 != t.priority / 64)
              || (exists u :: u in pq.q && u.priority / 64 == t.priority / 64 && u.priority >= t.priority)
  {
    var s := t.priority / 64;
    var head := pq.idx[s];
    SegIsBlock(t, 0);
    BlocksAreIndexed(pq, s);
    forall u | u in pq.q && u.priority / 64 == s
      ensures head >= 0 && u.priority <= pq.q[head].priority
    {
      var m :| 0 <= m < |pq.q| && pq.q[m] == u;
    }
    if head >= 0 {
      assert pq.q[head] in pq.q && pq.q[head].priority / 64 == s;
    }
  }

  // At most one priority in each block of 64: every push is guarded.
  ghost predicate OneLevelPerBlock(level: seq<int>, ops: seq<Op>) {
    && |level| == 4
    && forall i :: 0 <= i < |ops| && ops[i].AddOp? ==>
         0 <= ops[i].t.priority <= 255 && ops[i].t.priority == level[ops[i].t.priority / 64]
  }

  lemma {:induction false} OneLevelRunsAreGuarded(level: seq<int>, pq: PQ, ops: seq<Op>)
    requires Indexed(pq) && OneLevelPerBlock(level, ops)
    requires forall t :: t in pq.q ==> InRange(t) && t.priority == level[t.priority / 64]
    ensures Guarded(pq, ops)
    decreases |ops|
  {
    if ops != [] {
      var r := Step(pq, ops[0]);
      match ops[0] {
        case AddOp(t, push) =>
          assert forall x :: x in r.q ==> x in pq.q || x == t;
          SameBlockSameLevel(level, pq, t);
        case PopOp =>
          assert forall x :: x in r.q ==> x in pq.q;
        case CancelOp(owner) =>
          CancelFromIsOthers(pq, 0, owner);
          OthersMembers(pq.q, owner);
          assert pq.q[0..] == pq.q;
      }
      OneLevelRunsAreGuarded(level, r, ops[1..]);
    }
  }

  lemma SameBlockSameLevel(level: seq<int>, pq: PQ, t: Task)
    requires Indexed(pq) && |level| == 4 && InRange(t) && t.priority == level[t.priority / 64]
    requires forall u :: u in pq.q ==> InRange(u) && u.priority == level[u.priority / 64]
    ensures PushOk(pq, t)
  {
    var head := pq.idx[Seg(t)];
    SegIsBlock(t, 0);
    if head >= 0 {
      assert pq.q[head] in pq.q;
      SegIsBlock(pq.q[head], 0);
    }
  }

  // So a pool that uses at most one priority in each of 0..63, 64..127, 128..191 and
  // 192..255 is, over every run from the empty ring, the plain sorted list.
  lemma OneLevelRunsAreSorted(level: seq<int>, ops: seq<Op>)
    requires OneLevelPerBlock(level, ops)
    ensures Indexed(EMPTY) && WellIndexed(Run(EMPTY, ops)) && Run(EMPTY, ops).q == SimpleRun([], ops)
  {
    OneLevelRunsAreGuarded(level, EMPTY, ops);
    RunRefines(EMPTY, ops);
  }

  // Without the guard the ring need not stay sorted: three pushes into one
  // segment, each above the last, come out as 6, 7, 5.
  lemma UnguardedPushesUnsort(t: Task)
    ensures Indexed(EMPTY)
    ensures var a, b, c := t.(priority := 5), t.(priority := 6), t.(priority := 7);
            Run(EMPTY, [AddOp(a, true), AddOp(b, true), AddOp(c, true)]).q == [b, c, a]
  {
    hide Step, Run;
    var a, b, c := t.(priority := 5), t.(priority := 6), t.(priority := 7);
    FirstPush(a);
    PushAboveHead([a], 0, b);
    assert [a][..0] + [b] + [a][0..] == [b, a];
    PushAboveHead([b, a], 1, c);
    assert [b, a][..1] + [c] + [b, a][1..] == [b, c, a];
    var o1, o2, o3 := AddOp(a, true), AddOp(b, true), AddOp(c, true);
    assert [o1] + [o2, o3] == [o1, o2, o3] && [o2] + [o3] == [o2, o3] && [o3] + [] == [o3];
    RunCons(EMPTY, AddOp(a, true), [AddOp(b, true), AddOp(c, true)]);
    RunCons(PQ([a], [0, -1, -1, -1]), AddOp(b, true), [AddOp(c, true)]);
    RunCons(PQ([b, a], [1, -1, -1, -1]), AddOp(c, true), []);
    RunNone(Step(PQ([b, a], [1, -1, -1, -1]), AddOp(c, true)));
  }

  lemma FirstPush(a: Task)
    requires Seg(a) == 0
    ensures Indexed(EMPTY) && Step(EMPTY, AddOp(a, true)) == PQ([a], [0, -1, -1, -1])
  {
    assert LowerHead(EMPTY, -1) == 0;
  }

  lemma PushAboveHead(q: seq<Task>, h: int, b: Task)
    requires 0 <= h < |q| && Seg(q[h]) == 0 && Seg(b) == 0 && b.priority > q[h].priority
    ensures Indexed(PQ(q, [h, -1, -1, -1]))
    ensures Step(PQ(q, [h, -1, -1, -1]), AddOp(b, true)) == PQ(q[..h] + [b] + q[h..], [h + 1, -1, -1, -1])
  {
  }

  lemma RunNone(pq: PQ)
    requires Indexed(pq)
    ensures Run(pq, []) == pq
  {
  }

  lemma RunCons(pq: PQ, op: Op, ops: seq<Op>)
    requires Indexed(pq)
    ensures Run(pq, [op] + ops) == Run(Step(pq, op), ops)
  {
    assert ([op] + ops)[1..] == ops;
  }

  // ---------- the scheduled tasks ----------

  ghost predicate TimeSorted(s: seq<Task>) {
    forall i, j :: 0 <= i < j < |s| ==> s[i].time <= s[j].time
  }

  // schedule_task: in front of the first strictly later task, else at the tail.
  function SchedPos(s: seq<Task>, i: nat, time: int): (j: nat)
    requires i <= |s|
    ensures i <= j <= |s|
    ensures forall m :: i <= m < j ==> s[m].time <= time
    ensures j < |s| ==> time < s[j].time
    decreases |s| - i
  {
    if i < |s| && time >= s[i].time then SchedPos(s, i + 1, time) else i
  }

  function SchedAdd(s: seq<Task>, t: Task): (r: seq<Task>) {
    var j := SchedPos(s, 0, t.time);
    s[..j] + [t] + s[j..]
  }

  // Scheduling is a stable insertion into the time order: everything in front of
  // the new task is due no later, everything behind it strictly later.
  lemma SchedAddStable(s: seq<Task>, t: Task)
    requires TimeSorted(s)
    ensures var j := SchedPos(s, 0, t.time);
            && SchedAdd(s, t) == s[..j] + [t] + s[j..]
            && (forall m :: 0 <= m < j ==> s[m].time <= t.time)
            && (forall m :: j <= m < |s| ==> s[m].time > t.time)
    ensures TimeSorted(SchedAdd(s, t))
  {
    var j := SchedPos(s, 0, t.time);
    forall m | j <= m < |s|
      ensures s[m].time > t.time
    {
      assert s[j].time <= s[m].time;
    }
    InsertTimeSorted(s, j, t);
  }

  lemma InsertTimeSorted(s: seq<Task>, j: nat, t: Task)
    requires j <= |s| && TimeSorted(s)
    requires forall m :: 0 <= m < j ==> s[m].time <= t.time
    requires forall m :: j <= m < |s| ==> s[m].time >= t.time
    ensures TimeSorted(s[..j] + [t] + s[j..])
  {
    var r := s[..j] + [t] + s[j..];
    forall a, b | 0 <= a < b < |r|
      ensures r[a].time <= r[b].time
    {
      assert r[a] == if a < j then s[a] else if a == j then t else s[a - 1];
      assert r[b] == if b < j then s[b] else if b == j then t else s[b - 1];
    }
  }

  lemma {:induction false} OthersTimeSorted(s: seq<Task>, owner: int)
    requires TimeSorted(s)
    ensures TimeSorted(Others(s, owner))
  {
    if s != [] {
      OthersTimeSorted(s[1..], owner);
      OthersMembers(s[1..], owner);
    }
  }

  // ---------- pop_task ----------

  datatype Popped = Nothing | Due(t: Task) | Ready(t: Task)

  function Pop(pq: PQ, sched: seq<Task>, now: int): (r: Popped) {
    if sched != [] && sched[0].time <= now then Due(sched[0])
    else if pq.q != [] then Ready(pq.q[0])
    else Nothing
  }

  function PopQueue(pq: PQ, sched: seq<Task>, now: int): (r: PQ)
    requires Indexed(pq)
    ensures Indexed(r)
  {
    if Pop(pq, sched, now).Ready? then RemoveAtIndexed(pq, 0); RemoveAt(pq, 0) else pq
  }

  function PopSched(pq: PQ, sched: seq<Task>, now: int): (r: seq<Task>) {
    if Pop(pq, sched, now).Due? then sched[1..] else sched
  }

  // What pop_task delivers: a scheduled task never before its time and then the
  // earliest of all of them; a priority task only when nothing is due; nothing only
  // when nothing is ready.
  lemma PopIsDue(pq: PQ, sched: seq<Task>, now: int)
    requires TimeSorted(sched)
    ensures match Pop(pq, sched, now)
            case Due(t) => t in sched && t.time <= now && forall u :: u in sched ==> t.time <= u.time
            case Ready(t) => t in pq.q && forall u :: u in sched ==> now < u.time
            case Nothing => pq.q == [] && forall u :: u in sched ==> now < u.time
  {
    assert sched != [] ==> forall i :: 0 <= i < |sched| ==> sched[0].time <= sched[i].time;
  }

  // A priority task it delivers is a greatest one.
  lemma PopIsGreatest(pq: PQ, sched: seq<Task>, now: int)
    requires WellIndexed(pq)
    ensures Pop(pq, sched, now).Ready? ==> forall u :: u in pq.q ==> u.priority <= Pop(pq, sched, now).t.priority
  {
    assert pq.q != [] ==> forall i :: 0 <= i < |pq.q| ==> pq.q[i].priority <= pq.q[0].priority;
  }
}
