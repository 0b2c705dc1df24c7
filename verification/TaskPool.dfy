/** The task side of `base_threadpool_t`: the priority ring, the scheduled ring and
    the recycled task objects together, with the operations that move a task object
    between them. */
module TaskPool {
  import opened Sequences
  import opened BaseRing
  import opened TaskOrder
  import opened TaskQueue

  datatype Status = OK | ERANGE | ENOMEM

  // The task as schedule_task files it.  With delay <= 0 the due time is what the union
  // happens to read as.
  function Filed(v: Task, delay: int, now: int, other: int): (t: Task)
    ensures t.func == v.func && t.flag == v.flag && t.param == v.param && t.owner == v.owner
    ensures delay > 0 ==> t.time == now + delay
    ensures delay <= 0 ==> t.time == other && t.priority == 0
  {
    if delay > 0 then v.(priority := other, time := now + delay) else v.(priority := 0, time := other)
  }

  class Pool {
    const prio: PriorityRing
    const timed: ScheduledRing
    const bin: TaskNode                 // BASE_RING_SENTINEL(me->recycled_tasks)
    ghost var bn: seq<TaskNode>
    var taskMax: nat                    // 0: unbounded
    var tasksHigh: nat

    ghost predicate Valid()
      reads this, prio, prio.head, prio.ns, timed, timed.head, timed.ns, bin, bn
    {
      && prio.Valid() && timed.Valid() && IsRing(bin, bn)
      && Apart()
    }

    // No object serves two rings.
    ghost predicate Apart()
      reads this, prio, timed
    {
      && Ring(prio.head, prio.ns) !! Ring(timed.head, timed.ns)
      && Ring(prio.head, prio.ns) !! Ring(bin, bn)
      && Ring(timed.head, timed.ns) !! Ring(bin, bn)
    }

    static ghost function Ring(s: TaskNode, ns: seq<TaskNode>): set<TaskNode> {
      {s} + Members(ns)
    }

    // Every object of the pool's rings, the sentinels included.
    ghost function Nodes(): set<TaskNode>
      reads this, prio, timed
    {
      Ring(prio.head, prio.ns) + Ring(timed.head, timed.ns) + Ring(bin, bn)
    }

    constructor (maxTasks: nat, junk: Task)
      ensures Valid() && prio.pq == EMPTY && timed.q == [] && bn == []
      ensures taskMax == maxTasks && tasksHigh == 0
      ensures fresh(prio) && fresh(timed) && fresh(Nodes())
    {
      var p := new PriorityRing();
      var t := new ScheduledRing(junk);
      var b := new Node(junk);
      prio, timed, bin, bn, taskMax, tasksHigh := p, t, b, [], maxTasks, 0;
    }

    // task_new: a recycled object if there is one, else a new one when calloc
    // succeeds (`memory`).  The dispatch union receives either the due time or the
    // priority; `other` is what its other member then reads as.
    method TaskNew(v: Task, delay: int, now: int, other: int, memory: bool) returns (t: Node?<Task>)
      requires Valid()
      modifies this`bn, bin`next, bin`prev, bn
      ensures Valid()
      ensures t == null <==> old(bn) == [] && !memory
      ensures t != null ==> t !in Nodes()
      ensures t != null ==> if old(bn) == [] then fresh(t) else t == old(bn)[0]
      ensures bn == if old(bn) == [] then [] else old(bn)[1..]
      ensures t != null ==> t.val == if delay > 0 then v.(priority := other, time := now + delay) else v.(time := other)
    {
      hide IsRing, PriorityRing.Valid, ScheduledRing.Valid;
      RingDistinct(bin, bn);
      RingLinks(bin, bn, -1);
      if bin.next == bin {
        if !memory {
          return null;
        }
        t := new Node(v);
      } else {
        t := bin.next;
        Remove(t, bin, bn, 0);
        assert bn[..0] + bn[1..] == bn[1..];
        bn := bn[1..];
        assert t !in bn;
      }
      assert Apart() && t !in Ring(prio.head, prio.ns) && t !in Ring(timed.head, timed.ns) && t !in Ring(bin, bn);
      assert prio.Valid() && timed.Valid() && IsRing(bin, bn);
      FillTask(t, if delay > 0 then v.(priority := other, time := now + delay) else v.(time := other));
      assert prio.Valid();
      assert timed.Valid();
      assert IsRing(bin, bn);
      assert Apart();
    }

    // BASE_RING_ELEM_INIT and the field assignments of task_new.
    method FillTask(t: TaskNode, v: Task)
      modifies t
      ensures t.val == v
    {
      t.next, t.prev, t.val := t, t, v;
    }

    // The queueing half of add_task (`push` as in base_threadpool_addtask, else
    // base_threadpool_top).
    method AddTask(v: Task, push: bool, other: int, memory: bool) returns (rv: Status)
      requires Valid()
      modifies this`bn, this`tasksHigh, bin`next, bin`prev, bn
      modifies prio, prio.head`next, prio.head`prev, Members(prio.ns)`next, Members(prio.ns)`prev
      ensures Valid() && timed.q == old(timed.q)
      ensures rv == ERANGE <==> taskMax != 0 && |old(prio.pq.q)| >= taskMax
      ensures rv == ENOMEM <==> rv != ERANGE && old(bn) == [] && !memory
      ensures prio.pq == if rv == OK then Add(old(prio.pq), v.(time := other), push) else old(prio.pq)
      ensures bn == if rv == OK && old(bn) != [] then old(bn)[1..] else old(bn)
      ensures forall n :: n in prio.ns ==> n in old(prio.ns) || n in old(bn) || fresh(n)
      ensures tasksHigh == if rv == OK && prio.taskCnt > old(tasksHigh) then prio.taskCnt else old(tasksHigh)
    {
      hide Valid, Add;
      if taskMax != 0 && prio.taskCnt >= taskMax {
        QueueLength();
        return ERANGE;
      }
      QueueLength();
      var t := TaskNew(v, 0, 0, other, memory);
      if t == null {
        return ENOMEM;
      }
      Queue(t, push);
      return OK;
    }

    // The part of add_task that files the object.
    method Queue(t: TaskNode, push: bool)
      requires Valid() && t !in Nodes()
      modifies this`tasksHigh, t`next, t`prev
      modifies prio, prio.head`next, prio.head`prev, Members(prio.ns)`next, Members(prio.ns)`prev
      ensures Valid() && prio.pq == Add(old(prio.pq), t.val, push)
      ensures forall n :: n in prio.ns <==> n in old(prio.ns) || n == t
      ensures tasksHigh == if prio.taskCnt > old(tasksHigh) then prio.taskCnt else old(tasksHigh)
    {
      hide IsRing, PriorityRing.Valid, ScheduledRing.Valid, Add;
      prio.Insert(t, push);
      if prio.taskCnt > tasksHigh {
        tasksHigh := prio.taskCnt;
      }
      assert IsRing(bin, bn);
      assert Apart();
      assert timed.Valid();
    }

    lemma QueueLength()
      requires Valid()
      ensures |prio.pq.q| == |prio.ns| == prio.taskCnt
    {
    }

    // The queueing half of schedule_task.
    method ScheduleTask(v: Task, delay: int, now: int, other: int, memory: bool) returns (rv: Status)
      requires Valid()
      modifies this`bn, bin`next, bin`prev, bn
      modifies timed, timed.head`next, timed.head`prev, Members(timed.ns)`next, Members(timed.ns)`prev
      ensures Valid() && prio.pq == old(prio.pq) && rv != ERANGE
      ensures rv == ENOMEM <==> old(bn) == [] && !memory
      ensures rv == ENOMEM ==> timed.q == old(timed.q)
      ensures bn == if rv == OK && old(bn) != [] then old(bn)[1..] else old(bn)
      ensures forall n :: n in timed.ns ==> n in old(timed.ns) || n in old(bn) || fresh(n)
      ensures rv == OK ==> timed.q == SchedAdd(old(timed.q), Filed(v, delay, now, other))
    {
      hide IsRing, PriorityRing.Valid, SchedAdd;
      var t := TaskNew(v.(priority := 0), delay, now, other, memory);
      if t == null {
        return ENOMEM;
      }
      timed.Insert(t);
      assert IsRing(bin, bn);
      assert Apart();
      assert prio.Valid();
      return OK;
    }

    // pop_task.
    method PopTask(now: int) returns (t: Node?<Task>)
      requires Valid()
      modifies prio, prio.head`next, prio.head`prev, Members(prio.ns)`next, Members(prio.ns)`prev
      modifies timed, timed.head`next, timed.head`prev, Members(timed.ns)`next, Members(timed.ns)`prev
      ensures Valid()
      ensures prio.pq == PopQueue(old(prio.pq), old(timed.q), now)
      ensures timed.q == PopSched(old(prio.pq), old(timed.q), now)
      ensures t == null <==> Pop(old(prio.pq), old(timed.q), now).Nothing?
      ensures forall n :: n in prio.ns ==> n in old(prio.ns)
      ensures forall n :: n in timed.ns ==> n in old(timed.ns)
      ensures t != null ==> t !in Nodes() && (t in old(prio.ns) || t in old(timed.ns))
      ensures t != null ==> t.val == Pop(old(prio.pq), old(timed.q), now).t
    {
      hide IsRing, RemoveAt, PriorityRing.Valid, ScheduledRing.Valid;
      RingsDistinct();
      t := timed.PopDue(now);
      assert prio.Valid() && IsRing(bin, bn);
      if t == null {
        t := prio.PopFirst();
        assert timed.Valid() && IsRing(bin, bn);
      }
    }

    lemma RingsDistinct()
      requires Valid()
      ensures Distinct(prio.ns) && prio.head !in prio.ns && Distinct(timed.ns) && timed.head !in timed.ns && Indexed(prio.pq)
    {
    }

    // A finished task's object joins the recycled ones.
    method Recycle(t: TaskNode)
      requires Valid()
      requires t !in Nodes()
      modifies this`bn, bin`next, bin`prev, Members(bn)`next, Members(bn)`prev, t`next, t`prev
      ensures Valid() && bn == old(bn) + [t]
      ensures prio.pq == old(prio.pq) && timed.q == old(timed.q)
    {
      hide IsRing, PriorityRing.Valid, ScheduledRing.Valid;
      InsertBefore(bin, t, bin, bn, |bn|);
      assert bn[..|bn|] + [t] + bn[|bn|..] == bn + [t];
      bn := bn + [t];
      assert Apart();
      assert prio.Valid() && timed.Valid();
    }

    // The locked region of base_threadpool_cancel_tasks.
    method CancelTasks(owner: int)
      requires Valid()
      modifies prio, prio.head`next, prio.head`prev, Members(prio.ns)`next, Members(prio.ns)`prev
      modifies timed, timed.head`next, timed.head`prev, Members(timed.ns)`next, Members(timed.ns)`prev
      ensures Valid() && bn == old(bn)
      ensures prio.pq == CancelFrom(old(prio.pq), 0, owner)
      ensures timed.q == Others(old(timed.q), owner)
      ensures forall n :: n in prio.ns ==> n in old(prio.ns)
      ensures forall n :: n in timed.ns ==> n in old(timed.ns)
    {
      hide IsRing;
      if prio.taskCnt > 0 {
        prio.RemoveTasks(owner);
        assert timed.Valid() && IsRing(bin, bn) && Apart();
      }
      if timed.schedCnt > 0 {
        timed.RemoveTasks(owner);
        assert prio.Valid() && IsRing(bin, bn) && Apart();
      }
    }
  }

  // ---------- whole runs ----------

  // What clients and workers do with the pool; a worker finishes the i-th of the tasks
  // that are running.
  datatype Call =
    | AddCall(v: Task, push: bool, other: int, memory: bool)
    | ScheduleCall(v: Task, delay: int, now: int, other: int, memory: bool)
    | PopCall(now: int)
    | FinishCall(i: nat)
    | CancelCall(owner: int)

  // The queues, the number of recycled objects and the tasks that are running.
  datatype Queues = Queues(pq: PQ, sched: seq<Task>, recycled: nat, running: seq<Task>)

  // Whether an object for a new task can be had, and the recycled ones afterwards.
  predicate HasObject(s: Queues, memory: bool) {
    s.recycled > 0 || memory
  }

  function Taken(s: Queues): nat {
    if s.recycled > 0 then s.recycled - 1 else 0
  }

  function After(s: Queues, taskMax: nat, c: Call): (r: Queues)
    requires Indexed(s.pq)
    ensures Indexed(r.pq)
  {
    match c
    case AddCall(v, push, other, memory) =>
      if (taskMax != 0 && |s.pq.q| >= taskMax) || !HasObject(s, memory) then s
      else
        AddIndexed(s.pq, v.(time := other), push);
        s.(pq := Add(s.pq, v.(time := other), push), recycled := Taken(s))
    case ScheduleCall(v, delay, now, other, memory) =>
      if !HasObject(s, memory) then s
      else s.(sched := SchedAdd(s.sched, Filed(v, delay, now, other)), recycled := Taken(s))
    case PopCall(now) =>
      var t := Pop(s.pq, s.sched, now);
      if t.Nothing? then s
      else s.(pq := PopQueue(s.pq, s.sched, now), sched := PopSched(s.pq, s.sched, now), running := s.running + [t.t])
    case FinishCall(i) =>
      if i < |s.running| then s.(running := s.running[..i] + s.running[i + 1..], recycled := s.recycled + 1) else s
    case CancelCall(owner) =>
      s.(pq := CancelFrom(s.pq, 0, owner), sched := Others(s.sched, owner))
  }

  function AfterAll(s: Queues, taskMax: nat, calls: seq<Call>): (r: Queues)
    requires Indexed(s.pq)
    ensures Indexed(r.pq)
    decreases |calls|
  {
    if calls == [] then s else AfterAll(After(s, taskMax, calls[0]), taskMax, calls[1..])
  }

  function Tasks(held: seq<TaskNode>): seq<Task>
    reads held
  {
    seq(|held|, i requires 0 <= i < |held| reads held => held[i].val)
  }

  ghost function View(p: Pool, held: seq<TaskNode>): Queues
    reads p, p.prio, p.timed, held
  {
    Queues(p.prio.pq, p.timed.q, |p.bn|, Tasks(held))
  }

  // The objects that workers hold are different ones and on no ring.
  ghost predicate Loose(p: Pool, held: seq<TaskNode>)
    reads p, p.prio, p.timed
  {
    Distinct(held) && forall n :: n in held ==> n !in p.Nodes()
  }

  lemma PoolIndexed(p: Pool)
    requires p.Valid()
    ensures Indexed(p.prio.pq) && |p.prio.pq.q| == |p.prio.ns|
  {
  }

  // Over every run of adds, schedules, pops, finished tasks and cancellations on a new
  // pool, with every outcome of the memory allocation, no object serves two rings or
  // two workers, or a ring and a worker; and the queues, the recycled objects and the
  // running tasks are those of the abstract run.
  method RunCalls(maxTasks: nat, junk: Task, calls: seq<Call>) returns (p: Pool, held: seq<TaskNode>)
    ensures p.Valid() && Loose(p, held)
    ensures Indexed(EMPTY) && View(p, held) == AfterAll(Queues(EMPTY, [], 0, []), maxTasks, calls)
  {
    hide Pool.Valid, After, Add, Indexed, Loose;
    p := new Pool(maxTasks, junk);
    held := [];
    PoolIndexed(p);
    NothingHeld(p);
    assert calls[0..] == calls;
    for n := 0 to |calls|
      invariant p.Valid() && Loose(p, held) && Indexed(p.prio.pq) && p.taskMax == maxTasks
      invariant fresh(p) && fresh(p.prio) && fresh(p.timed) && fresh(p.Nodes() + Members(held))
      invariant AfterAll(View(p, held), maxTasks, calls[n..]) == AfterAll(Queues(EMPTY, [], 0, []), maxTasks, calls)
    {
      assert calls[n..][0] == calls[n] && calls[n..][1..] == calls[n + 1..];
      held := Perform(p, calls[n], held);
      PoolIndexed(p);
    }
  }

  lemma NothingPopped(pq: PQ, sched: seq<Task>, now: int)
    requires Indexed(pq)
    ensures Pop(pq, sched, now).Nothing? ==> PopQueue(pq, sched, now) == pq && PopSched(pq, sched, now) == sched
  {
  }

  lemma DropHeld(held: seq<TaskNode>, i: nat)
    requires Distinct(held) && i < |held|
    ensures var r := held[..i] + held[i + 1..];
            Distinct(r) && held[i] !in r && forall n :: n in r ==> n in held
  {
  }

  lemma NothingHeld(p: Pool)
    ensures Loose(p, []) && Tasks([]) == []
  {
  }

  method Perform(p: Pool, c: Call, held: seq<TaskNode>) returns (now: seq<TaskNode>)
    requires p.Valid() && Loose(p, held) && Indexed(p.prio.pq)
    modifies p, p.prio, p.timed, p.Nodes(), Members(held)
    ensures p.Valid() && Loose(p, now) && p.taskMax == old(p.taskMax)
    ensures View(p, now) == After(old(View(p, held)), p.taskMax, c)
    ensures fresh(p.Nodes() + Members(now) - old(p.Nodes()) - Members(held))
  {
    hide *;
    match c {
      case AddCall(v, push, other, memory) => now := Queue(p, c, held);
      case ScheduleCall(v, delay, at, other, memory) => now := Plan(p, c, held);
      case PopCall(at) => now := Start(p, c, held);
      case FinishCall(i) => now := Finish(p, c, held);
      case CancelCall(owner) => now := Cancel(p, c, held);
    }
  }

  // A client queues a task.
  method Queue(p: Pool, c: Call, held: seq<TaskNode>) returns (now: seq<TaskNode>)
    requires p.Valid() && Loose(p, held) && Indexed(p.prio.pq) && c.AddCall?
    modifies p, p.prio, p.timed, p.Nodes(), Members(held)
    ensures p.Valid() && Loose(p, now) && p.taskMax == old(p.taskMax)
    ensures View(p, now) == After(old(View(p, held)), p.taskMax, c)
    ensures fresh(p.Nodes() + Members(now) - old(p.Nodes()) - Members(held))
  {
    hide Pool.Valid, Add, Indexed;
    now := held;
    PoolIndexed(p);
    assert forall n :: n in held ==> n !in p.bn;
    var rv := p.AddTask(c.v, c.push, c.other, c.memory);
    assert forall n :: n in held ==> n.val == old(n.val);
    assert Tasks(held) == old(Tasks(held));
  }

  // A client schedules a task.
  method Plan(p: Pool, c: Call, held: seq<TaskNode>) returns (now: seq<TaskNode>)
    requires p.Valid() && Loose(p, held) && Indexed(p.prio.pq) && c.ScheduleCall?
    modifies p, p.prio, p.timed, p.Nodes(), Members(held)
    ensures p.Valid() && Loose(p, now) && p.taskMax == old(p.taskMax)
    ensures View(p, now) == After(old(View(p, held)), p.taskMax, c)
    ensures fresh(p.Nodes() + Members(now) - old(p.Nodes()) - Members(held))
  {
    hide Pool.Valid, SchedAdd, Indexed, Filed;
    now := held;
    assert forall n :: n in held ==> n !in p.bn;
    var rv := p.ScheduleTask(c.v, c.delay, c.now, c.other, c.memory);
    assert forall n :: n in held ==> n.val == old(n.val);
    assert Tasks(held) == old(Tasks(held));
  }

  // A worker looks for a task.
  method Start(p: Pool, c: Call, held: seq<TaskNode>) returns (now: seq<TaskNode>)
    requires p.Valid() && Loose(p, held) && Indexed(p.prio.pq) && c.PopCall?
    modifies p, p.prio, p.timed, p.Nodes(), Members(held)
    ensures p.Valid() && Loose(p, now) && p.taskMax == old(p.taskMax)
    ensures View(p, now) == After(old(View(p, held)), p.taskMax, c)
    ensures fresh(p.Nodes() + Members(now) - old(p.Nodes()) - Members(held))
  {
    hide Pool.Valid, PopQueue, PopSched, Indexed;
    now := held;
    NothingPopped(p.prio.pq, p.timed.q, c.now);
    var t := p.PopTask(c.now);
    assert Tasks(held) == old(Tasks(held));
    if t != null {
      now := held + [t];
      assert Tasks(now) == Tasks(held) + [t.val];
    }
  }

  // A worker has finished one.
  method Finish(p: Pool, c: Call, held: seq<TaskNode>) returns (now: seq<TaskNode>)
    requires p.Valid() && Loose(p, held) && Indexed(p.prio.pq) && c.FinishCall?
    modifies p, p.prio, p.timed, p.Nodes(), Members(held)
    ensures p.Valid() && Loose(p, now) && p.taskMax == old(p.taskMax)
    ensures View(p, now) == After(old(View(p, held)), p.taskMax, c)
    ensures fresh(p.Nodes() + Members(now) - old(p.Nodes()) - Members(held))
  {
    hide Pool.Valid, Indexed;
    now := held;
    if c.i < |held| {
      DropHeld(held, c.i);
      p.Recycle(held[c.i]);
      now := held[..c.i] + held[c.i + 1..];
      assert Tasks(now) == old(Tasks(held)[..c.i] + Tasks(held)[c.i + 1..]);
    }
  }

  // A client cancels.
  method Cancel(p: Pool, c: Call, held: seq<TaskNode>) returns (now: seq<TaskNode>)
    requires p.Valid() && Loose(p, held) && Indexed(p.prio.pq) && c.CancelCall?
    modifies p, p.prio, p.timed, p.Nodes(), Members(held)
    ensures p.Valid() && Loose(p, now) && p.taskMax == old(p.taskMax)
    ensures View(p, now) == After(old(View(p, held)), p.taskMax, c)
    ensures fresh(p.Nodes() + Members(now) - old(p.Nodes()) - Members(held))
  {
    hide Pool.Valid, CancelFrom, Others, Indexed;
    now := held;
    p.CancelTasks(c.owner);
    assert Tasks(held) == old(Tasks(held));
  }
}
