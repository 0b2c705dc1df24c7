/** The task rings of `base_threadpool.c` on the heap: the priority ring with
    `task_idx` and `task_cnt`, the ring of scheduled tasks, and the recycled task
    objects.  Every public method stands for code that runs under `me->lock`. */
module TaskQueue {
  import opened Sequences
  import opened BaseRing
  import opened TaskOrder

  type TaskNode = Node<Task>

  // ptrs[s] is the node at position idx[s] of the ring, NULL for -1.
  ghost predicate Points(ns: seq<TaskNode>, ptrs: seq<Node?<Task>>, idx: seq<int>) {
    && |ptrs| == |idx| == SEGS
    && forall s :: 0 <= s < SEGS ==>
         -1 <= idx[s] < |ns| && ptrs[s] == if idx[s] < 0 then null else ns[idx[s]]
  }

  // The index after the k-th task has been taken out.
  ghost function Repoint(ns: seq<TaskNode>, q: seq<Task>, ptrs: seq<Node?<Task>>, k: nat): seq<Node?<Task>>
    requires k < |ns| == |q| && |ptrs| == SEGS
  {
    if ptrs[Seg(q[k])] != ns[k] then ptrs
    else ptrs[Seg(q[k]) := if k + 1 < |ns| && Seg(q[k + 1]) == Seg(q[k]) then ns[k + 1] else null]
  }

  lemma RepointIsRemoveAt(ns: seq<TaskNode>, pq: PQ, ptrs: seq<Node?<Task>>, k: nat)
    requires k < |ns| == |pq.q| && Distinct(ns) && Points(ns, ptrs, pq.idx) && Indexed(pq)
    ensures Points(ns[..k] + ns[k + 1..], Repoint(ns, pq.q, ptrs, k), RemoveAt(pq, k).idx)
  {
    var r := RemoveAt(pq, k);
    var ms := ns[..k] + ns[k + 1..];
    RemoveAtIndexed(pq, k);
    forall s | 0 <= s < SEGS
      ensures -1 <= r.idx[s] < |ms|
      ensures Repoint(ns, pq.q, ptrs, k)[s] == if r.idx[s] < 0 then null else ms[r.idx[s]]
    {
      assert pq.idx[s] >= 0 && pq.idx[s] != k ==> ns[pq.idx[s]] != ns[k];
    }
  }

  // The index after `t` has been linked in at position j: re-pointed when the
  // segment was empty, or by a top in front of the segment's head.
  ghost function Enter(ptrs: seq<Node?<Task>>, pq: PQ, t: TaskNode, v: Task, push: bool): seq<Node?<Task>>
    requires Indexed(pq) && |ptrs| == SEGS
  {
    if pq.idx[Seg(v)] < 0 || (!push && AddPos(pq, v, push) == pq.idx[Seg(v)]) then ptrs[Seg(v) := t] else ptrs
  }

  lemma EnterIsAdd(ns: seq<TaskNode>, pq: PQ, ptrs: seq<Node?<Task>>, t: TaskNode, v: Task, push: bool)
    requires |ns| == |pq.q| && Points(ns, ptrs, pq.idx) && Indexed(pq)
    ensures var j := AddPos(pq, v, push);
            Points(ns[..j] + [t] + ns[j..], Enter(ptrs, pq, t, v, push), Add(pq, v, push).idx)
  {
    hide AddPos, Indexed, Seg;
    var j := AddPos(pq, v, push);
    var ms, idx := ns[..j] + [t] + ns[j..], Add(pq, v, push).idx;
    forall s | 0 <= s < SEGS
      ensures -1 <= idx[s] < |ms|
      ensures Enter(ptrs, pq, t, v, push)[s] == if idx[s] < 0 then null else ms[idx[s]]
    {
      var i := pq.idx[s];
      assert ms[j] == t && (0 <= i < j ==> ms[i] == ns[i]) && (i >= j ==> ms[i + 1] == ns[i]);
    }
  }

  lemma EnterCase(s: TaskNode, ns: seq<TaskNode>, ptrs: seq<Node?<Task>>, pq: PQ, t: TaskNode, v: Task, push: bool)
    requires Distinct(ns) && s !in ns && |ns| == |pq.q| && Points(ns, ptrs, pq.idx) && Indexed(pq)
    ensures |ptrs| == SEGS
    ensures var seg, loc := Seg(v), At(s, ns, AddPos(pq, v, push));
            Enter(ptrs, pq, t, v, push)
              == if ptrs[seg] == null || (!push && loc == ptrs[seg]) then ptrs[seg := t] else ptrs
  {
  }

  lemma InsertMembers<X>(xs: seq<X>, k: nat, x: X)
    requires k <= |xs|
    ensures forall y :: y in xs[..k] + [x] + xs[k..] <==> y in xs || y == x
  {
    assert xs == xs[..k] + xs[k..];
  }

  lemma HoldsRemove(ns: seq<TaskNode>, pq: PQ, k: nat)
    requires Indexed(pq) && Holds(ns, pq.q) && k < |ns|
    ensures Holds(ns[..k] + ns[k + 1..], RemoveAt(pq, k).q)
  {
  }

  lemma HoldsAt(ns: seq<TaskNode>, q: seq<Task>, k: nat)
    requires Holds(ns, q) && k < |ns|
    ensures |ns| == |q| && ns[k].val == q[k]
  {
  }

  lemma HoldsSize(ns: seq<TaskNode>, q: seq<Task>)
    requires Holds(ns, q)
    ensures |ns| == |q|
  {
  }

  // Linking a task in at its position of the priority ring.
  method LinkIn(loc: TaskNode, t: TaskNode, ghost head: TaskNode, ghost ns: seq<TaskNode>, ghost pq: PQ, ghost push: bool, ghost k: nat)
    requires IsRing(head, ns) && Holds(ns, pq.q) && Indexed(pq) && t != head && t !in ns
    requires k == AddPos(pq, t.val, push) && loc == At(head, ns, k)
    modifies head`next, head`prev, Members(ns)`next, Members(ns)`prev, t`next, t`prev
    ensures IsRing(head, ns[..k] + [t] + ns[k..]) && Holds(ns[..k] + [t] + ns[k..], Add(pq, t.val, push).q)
  {
    hide IsRing, Indexed, AddPos;
    InsertBefore(loc, t, head, ns, k);
  }

  class PriorityRing {
    const head: TaskNode                // BASE_RING_SENTINEL(me->tasks)
    var taskIdx: seq<Node?<Task>>       // task_idx[TASK_PRIORITY_SEGS], an array inside the struct
    var taskCnt: nat
    ghost var ns: seq<TaskNode>
    ghost var pq: PQ                    // the abstract value

    ghost predicate Valid()
      reads this, head, ns
    {
      Shape() && taskCnt == |ns|
    }

    ghost predicate Shape()
      reads this, head, ns
    {
      && IsRing(head, ns)
      && Holds(ns, pq.q)
      && Points(ns, taskIdx, pq.idx)
      && Indexed(pq)
    }

    constructor ()
      ensures Valid() && pq == EMPTY && ns == [] && fresh(head)
    {
      var s := new Node(Task(0, 0, 0, 0, 0, 0));
      head, taskIdx, taskCnt := s, [null, null, null, null], 0;
      ns, pq := [], EMPTY;
    }

    // Move the index entry that points at the k-th task, if any, to the next task of
    // the same segment, or clear it.
    method DropFromIndex(t: TaskNode, ghost k: nat)
      requires Shape() && k < |ns| && t == ns[k]
      modifies this`taskIdx
      ensures taskIdx == Repoint(ns, pq.q, old(taskIdx), k)
    {
      RingLinks(head, ns, k);
      var seg := Seg(t.val);
      if t == taskIdx[seg] {
        taskIdx := taskIdx[seg := t.next];
        if taskIdx[seg] == head || Seg(taskIdx[seg].val) != seg {
          taskIdx := taskIdx[seg := null];
        }
      }
    }

    // Take the k-th task out of the ring and out of the index.
    method Detach(t: TaskNode, ghost k: nat)
      requires Valid() && k < |ns| && t == ns[k]
      modifies this, head`next, head`prev, Members(ns)`next, Members(ns)`prev
      ensures Valid()
      ensures ns == old(ns[..k] + ns[k + 1..]) && pq == RemoveAt(old(pq), k)
      ensures t.next == old(t.next)
    {
      hide IsRing, RemoveAt, Points, Indexed, Repoint;
      RingDistinct(head, ns);
      taskCnt := taskCnt - 1;
      DropFromIndex(t, k);
      RepointIsRemoveAt(ns, pq, old(taskIdx), k);
      RemoveAtIndexed(pq, k);
      Remove(t, head, ns, k);
      HoldsRemove(ns, pq, k);
      ns, pq := ns[..k] + ns[k + 1..], RemoveAt(pq, k);
    }

    // The walk of add_if_empty from the head of a non-empty segment.
    method WalkSegment(t: TaskNode) returns (loc: TaskNode, ghost k: nat)
      requires Shape() && pq.idx[Seg(t.val)] >= 0
      ensures loc == At(head, ns, SkipGreater(pq.q, pq.idx[Seg(t.val)], t.val.priority)) && k == SkipGreater(pq.q, pq.idx[Seg(t.val)], t.val.priority)
    {
      hide IsRing;
      RingDistinct(head, ns);
      loc, k := taskIdx[Seg(t.val)], pq.idx[Seg(t.val)];
      while loc.val.priority > t.val.priority
        invariant pq.idx[Seg(t.val)] <= k < |ns| && loc == ns[k]
        invariant SkipGreater(pq.q, k, t.val.priority) == SkipGreater(pq.q, pq.idx[Seg(t.val)], t.val.priority)
        decreases |ns| - k
      {
        RingLinks(head, ns, k);
        loc, k := loc.next, k + 1;
        if loc == head {
          return;
        }
      }
    }

    // The walk of add_if_empty over the lower segments; the sentinel when all are empty.
    method WalkLower(seg: int) returns (loc: TaskNode)
      requires Shape() && 0 <= seg < SEGS
      ensures loc == At(head, ns, LowerHead(pq, seg - 1))
    {
      var next := seg - 1;
      while next >= 0
        invariant -1 <= next < seg && LowerHead(pq, next) == LowerHead(pq, seg - 1)
      {
        if taskIdx[next] != null {
          return taskIdx[next];
        }
        next := next - 1;
      }
      return head;
    }

    // The push walk of add_task.
    method WalkEqual(t: TaskNode, from: TaskNode, ghost start: nat) returns (loc: TaskNode, ghost k: nat)
      requires Shape() && start <= |ns| && from == At(head, ns, start)
      ensures loc == At(head, ns, SkipGeq(pq.q, start, t.val.priority)) && k == SkipGeq(pq.q, start, t.val.priority)
    {
      hide IsRing;
      RingDistinct(head, ns);
      loc, k := from, start;
      while loc != head && loc.val.priority >= t.val.priority
        invariant start <= k <= |ns| && loc == At(head, ns, k)
        invariant SkipGeq(pq.q, k, t.val.priority) == SkipGeq(pq.q, start, t.val.priority)
        decreases |ns| - k
      {
        RingLinks(head, ns, k);
        loc, k := loc.next, k + 1;
      }
    }

    // Where add_if_empty and add_task together decide to link the task in.
    method FindPlace(t: TaskNode, push: bool) returns (loc: TaskNode, ghost k: nat)
      requires Shape()
      ensures loc == At(head, ns, AddPos(pq, t.val, push)) && k == AddPos(pq, t.val, push)
    {
      hide IsRing;
      if taskIdx[Seg(t.val)] == null {
        loc := WalkLower(Seg(t.val));
        k := LowerHead(pq, Seg(t.val) - 1);
      } else {
        loc, k := WalkSegment(t);
        if push {
          loc, k := WalkEqual(t, loc, k);
        }
      }
    }

    // add_if_empty followed by the rest of add_task: file the task.
    method Insert(t: TaskNode, push: bool)
      requires Valid() && t != head && t !in ns
      modifies this, head`next, head`prev, Members(ns)`next, Members(ns)`prev, t`next, t`prev
      ensures Valid() && pq == Add(old(pq), t.val, push)
      ensures forall n :: n in ns <==> n in old(ns) || n == t
    {
      hide IsRing, Holds, Points, Indexed, Add, AddPos, Enter;
      HoldsSize(ns, pq.q);
      var seg := Seg(t.val);
      var loc, k := FindPlace(t, push);
      EnterIsAdd(ns, pq, taskIdx, t, t.val, push);
      RingDistinct(head, ns);
      EnterCase(head, ns, taskIdx, pq, t, t.val, push);
      InsertMembers(ns, k, t);
      LinkIn(loc, t, head, ns, pq, push, k);
      AddIndexed(pq, t.val, push);
      if taskIdx[seg] == null || (!push && loc == taskIdx[seg]) {
        taskIdx := taskIdx[seg := t];
      }
      ns, pq := ns[..k] + [t] + ns[k..], Add(pq, t.val, push);
      taskCnt := taskCnt + 1;
    }

    // The part of pop_task on this ring: the first task's object, if there is one.
    method PopFirst() returns (t: Node?<Task>)
      requires Valid()
      modifies this, head`next, head`prev, Members(ns)`next, Members(ns)`prev
      ensures Valid() && (t == null <==> old(pq.q) == [])
      ensures t == null ==> pq == old(pq) && ns == old(ns)
      ensures t != null ==> old(|ns|) > 0 && old(|pq.q|) > 0 && Indexed(old(pq))
      ensures t != null ==> t == old(ns)[0] && t.val == old(pq.q)[0] && ns == old(ns)[1..] && pq == RemoveAt(old(pq), 0)
    {
      hide IsRing, Holds, Points, Indexed, RemoveAt;
      HoldsSize(ns, pq.q);
      if taskCnt == 0 {
        return null;
      }
      HoldsAt(ns, pq.q, 0);
      RingLinks(head, ns, -1);
      t := head.next;
      Detach(t, 0);
      assert old(ns)[..0] + old(ns)[1..] == old(ns)[1..];
    }

    // remove_tasks.
    method RemoveTasks(owner: int)
      requires Valid()
      modifies this, head`next, head`prev, Members(ns)`next, Members(ns)`prev
      ensures Valid() && pq == CancelFrom(old(pq), 0, owner)
      ensures forall n :: n in ns ==> n in old(ns)
    {
      hide IsRing;
      RingDistinct(head, ns);
      RingLinks(head, ns, -1);
      var loc := head.next;
      ghost var i := 0;
      while loc != head
        invariant Valid() && 0 <= i <= |ns| && loc == At(head, ns, i)
        invariant CancelFrom(pq, i, owner) == CancelFrom(old(pq), 0, owner)
        invariant forall n :: n in ns ==> n in old(ns)
        decreases |ns| - i
      {
        RingLinks(head, ns, i);
        var next := loc.next;
        if loc.val.owner == owner {
          Detach(loc, i);
        } else {
          i := i + 1;
        }
        loc := next;
      }
    }
  }

  // Every run of tops, pushes, pops and cancellations on the ring is the run of the
  // specification; when it is guarded, the ring ends as the plain sorted list would.
  method RunOps(r: PriorityRing, ops: seq<Op>)
    requires r.Valid()
    modifies r, r.head`next, r.head`prev, Members(r.ns)`next, Members(r.ns)`prev
    ensures r.Valid() && Indexed(old(r.pq)) && r.pq == Run(old(r.pq), ops)
    ensures WellIndexed(old(r.pq)) && Guarded(old(r.pq), ops) ==>
              WellIndexed(r.pq) && r.pq.q == SimpleRun(old(r.pq.q), ops)
  {
    hide IsRing, Holds, Points, Indexed, WellIndexed, Guarded, SimpleRun, Step, PriorityRing.Shape;
    RingIndexed(r);
    ghost var pq0 := r.pq;
    assert ops[0..] == ops;
    for n := 0 to |ops|
      invariant r.Valid() && Indexed(r.pq) && Run(r.pq, ops[n..]) == Run(pq0, ops)
      invariant forall x :: x in r.ns ==> x in old(r.ns) || fresh(x)
    {
      assert ops[n..][0] == ops[n] && ops[n..][1..] == ops[n + 1..];
      Perform(r, ops[n]);
      RingIndexed(r);
    }
    if WellIndexed(pq0) && Guarded(pq0, ops) {
      RunRefines(pq0, ops);
    }
  }

  lemma RingIndexed(r: PriorityRing)
    requires r.Valid()
    ensures Indexed(r.pq)
  {
  }

  method Perform(r: PriorityRing, op: Op)
    requires r.Valid() && Indexed(r.pq)
    modifies r, r.head`next, r.head`prev, Members(r.ns)`next, Members(r.ns)`prev
    ensures r.Valid() && r.pq == Step(old(r.pq), op)
    ensures forall x :: x in r.ns ==> x in old(r.ns) || fresh(x)
  {
    match op {
      case AddOp(v, push) =>
        var t := new Node(v);
        r.Insert(t, push);
      case PopOp =>
        var t := r.PopFirst();
      case CancelOp(owner) =>
        r.RemoveTasks(owner);
    }
  }

  lemma HoldsSchedAdd(ns: seq<TaskNode>, q: seq<Task>, t: TaskNode)
    requires Holds(ns, q)
    ensures var j := SchedPos(q, 0, t.val.time);
            Holds(ns[..j] + [t] + ns[j..], SchedAdd(q, t.val))
  {
  }

  class ScheduledRing {
    const head: TaskNode                // BASE_RING_SENTINEL(me->scheduled_tasks)
    var schedCnt: nat
    ghost var ns: seq<TaskNode>
    ghost var q: seq<Task>              // the abstract value

    ghost predicate Valid()
      reads this, head, ns
    {
      IsRing(head, ns) && Holds(ns, q) && schedCnt == |ns|
    }

    // What the sentinel reads as is arbitrary: `junk`.
    constructor (junk: Task)
      ensures Valid() && q == [] && ns == [] && fresh(head)
    {
      var s := new Node(junk);
      head, schedCnt := s, 0;
      ns, q := [], [];
    }

    // The walk of schedule_task.  On an empty ring it compares once with whatever is
    // read through the sentinel; either outcome links the task in as the only one.
    method WalkTimes(t: TaskNode) returns (loc: TaskNode)
      requires Valid()
      ensures loc == At(head, ns, SchedPos(q, 0, t.val.time))
    {
      hide IsRing;
      RingDistinct(head, ns);
      RingLinks(head, ns, -1);
      loc := head.next;
      ghost var k := 0;
      while true
        invariant 0 <= k && (k < |ns| || ns == []) && loc == At(head, ns, k)
        invariant ns != [] ==> SchedPos(q, k, t.val.time) == SchedPos(q, 0, t.val.time)
        decreases |ns| - k
      {
        if t.val.time < loc.val.time {
          return;
        }
        if ns == [] {
          RingLinks(head, ns, -1);
        } else {
          RingLinks(head, ns, k);
        }
        loc, k := loc.next, k + 1;
        if loc == head {
          return;
        }
      }
    }

    // The part of schedule_task that files the task.
    method Insert(t: TaskNode)
      requires Valid() && t != head && t !in ns
      modifies this, head`next, head`prev, Members(ns)`next, Members(ns)`prev, t`next, t`prev
      ensures Valid() && q == SchedAdd(old(q), t.val)
      ensures forall n :: n in ns <==> n in old(ns) || n == t
    {
      hide IsRing, SchedAdd;
      var loc := WalkTimes(t);
      ghost var k := SchedPos(q, 0, t.val.time);
      InsertMembers(ns, k, t);
      InsertBefore(loc, t, head, ns, k);
      HoldsSchedAdd(ns, q, t);
      ns, q := ns[..k] + [t] + ns[k..], SchedAdd(q, t.val);
      schedCnt := schedCnt + 1;
    }

    method Detach(t: TaskNode, ghost k: nat)
      requires Valid() && k < |ns| && t == ns[k]
      modifies this, head`next, head`prev, Members(ns)`next, Members(ns)`prev
      ensures Valid()
      ensures ns == old(ns[..k] + ns[k + 1..]) && q == old(q[..k] + q[k + 1..])
      ensures t.next == old(t.next)
    {
      hide IsRing;
      schedCnt := schedCnt - 1;
      Remove(t, head, ns, k);
      ns, q := ns[..k] + ns[k + 1..], q[..k] + q[k + 1..];
    }

    // The part of pop_task on this ring: the first task's object, if it is due.
    method PopDue(now: int) returns (t: Node?<Task>)
      requires Valid()
      modifies this, head`next, head`prev, Members(ns)`next, Members(ns)`prev
      ensures Valid() && (t == null <==> old(q) == [] || old(q)[0].time > now)
      ensures t == null ==> q == old(q) && ns == old(ns)
      ensures t != null ==> old(|ns|) > 0
      ensures t != null ==> t == old(ns)[0] && t.val == old(q)[0] && ns == old(ns)[1..] && q == old(q)[1..]
    {
      hide IsRing, Holds;
      HoldsSize(ns, q);
      if schedCnt == 0 {
        return null;
      }
      HoldsAt(ns, q, 0);
      RingLinks(head, ns, -1);
      t := head.next;
      if t.val.time > now {
        return null;
      }
      Detach(t, 0);
      assert old(ns)[..0] + old(ns)[1..] == old(ns)[1..] && old(q)[..0] + old(q)[1..] == old(q)[1..];
    }

    // remove_scheduled_tasks.
    method RemoveTasks(owner: int)
      requires Valid()
      modifies this, head`next, head`prev, Members(ns)`next, Members(ns)`prev
      ensures Valid() && q == Others(old(q), owner)
      ensures forall n :: n in ns ==> n in old(ns)
    {
      hide IsRing;
      RingDistinct(head, ns);
      RingLinks(head, ns, -1);
      var loc := head.next;
      ghost var i := 0;
      while loc != head
        invariant Valid() && 0 <= i <= |ns| && loc == At(head, ns, i)
        invariant q[..i] + Others(q[i..], owner) == Others(old(q), owner)
        invariant forall n :: n in ns ==> n in old(ns)
        decreases |ns| - i
      {
        RingLinks(head, ns, i);
        RingDistinct(head, ns);
        var next := loc.next;
        OthersStep(q, i, owner);
        if loc.val.owner == owner {
          Detach(loc, i);
        } else {
          i := i + 1;
        }
        loc := next;
      }
      RingDistinct(head, ns);
    }
  }

  lemma OthersStep(q: seq<Task>, i: nat, owner: int)
    requires i < |q|
    ensures if q[i].owner == owner then
              var r := q[..i] + q[i + 1..];
              q[..i] + Others(q[i..], owner) == r[..i] + Others(r[i..], owner)
            else q[..i] + Others(q[i..], owner) == q[..i + 1] + Others(q[i + 1..], owner)
  {
    assert q[i..][1..] == q[i + 1..];
    if q[i].owner == owner {
      var r := q[..i] + q[i + 1..];
      assert r[..i] == q[..i] && r[i..] == q[i + 1..];
    } else {
      var x := Others(q[i + 1..], owner);
      assert q[..i + 1] + x == q[..i] + ([q[i]] + x);
    }
  }
}
