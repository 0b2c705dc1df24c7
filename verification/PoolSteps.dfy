/** When the pool of `base_threadpool.c` gains a thread and loses one, how an idle thread
    waits, when a canceller goes on, and the bounds this puts on every run: all of it in
    terms of the rings and the configuration alone. */
module PoolSteps {
  import opened Sequences
  import opened TaskOrder
  import opened PoolProtocol

  // ---------- gaining a thread ----------

  // An accepted add makes a thread when there is none, or when nobody is idle, the maximum
  // is not reached and more tasks than the threshold are queued, the new one included; a
  // refused add changes nothing.
  lemma AddGrowsIff(s: State, step: Step)
    requires Core(s) && Legal(s, step) && step.AddTask?
    ensures var r, n := Next(s, step), |s.workers|;
            if s.cfg.taskMax != 0 && |s.pq.q| >= s.cfg.taskMax then r == s
            else
              var more := n == 0 || (s.idle == [] && n < s.cfg.thdMax && |s.pq.q| + 1 > s.cfg.threshold);
              |r.workers| == n + if step.spawnOk && more then 1 else 0
  {
    hide Indexed, Placed, TimeSorted, Conserved, Legal;
    NextCore(s, step);
  }

  // Scheduling makes a thread only when there is none.
  lemma ScheduleGrowsIff(s: State, step: Step)
    requires Core(s) && Legal(s, step) && step.Schedule?
    ensures |Next(s, step).workers| == |s.workers| + if step.spawnOk && s.workers == map[] then 1 else 0
  {
    hide Indexed, Placed, TimeSorted, Conserved, Legal;
    NextCore(s, step);
  }

  // The new thread starts, off probation; the signalled workers wake; nobody else changes.
  lemma OthersStay(s: State, step: Step, w: Wid)
    requires Core(s) && Legal(s, step) && (step.AddTask? || step.Schedule?) && w in Next(s, step).workers
    ensures Next(s, step).workers[w]
         == if w !in s.workers then Worker(Starting, false)
            else if w in step.wake && !(step.AddTask? && s.cfg.taskMax != 0 && |s.pq.q| >= s.cfg.taskMax) then
              s.workers[w].(pc := Woken)
            else s.workers[w]
    ensures w !in s.workers ==> w == step.spawn && step.spawnOk
  {
    hide Indexed, Placed, TimeSorted, Conserved;
  }

  // ---------- losing a thread ----------

  // `r` is the pool after worker w has found nothing ready, besides `others` idle workers.
  // It leaves when it is on probation, or when there is no idle time and enough others are
  // idle, unless a pool that keeps nobody idle has scheduled tasks.  Otherwise it waits:
  // until the first deadline when tasks are scheduled and the deadline is not yet past;
  // else, if more than the wanted number are idle, on probation and for the idle time.
  ghost predicate IdlesOrLeaves(s: State, r: State, w: Wid, later: int, others: int)
    requires w in s.workers
  {
    var leaves :=
      || s.workers[w].probation
      || (s.cfg.idleWait == 0 && others >= s.cfg.idleMax && (s.sched == [] || s.cfg.idleMax > 0));
    var many := s.sched == [] && others + 1 > s.cfg.idleMax;
    && r.pq == s.pq && r.sched == s.sched
    && (forall v :: v != w ==> (v in r.workers <==> v in s.workers) && (v in s.workers ==> r.workers[v] == s.workers[v]))
    && if leaves then w !in r.workers && |r.idle| == others
       else && w in r.workers && |r.idle| == others + 1
            && r.workers[w] == Worker(Waiting((s.sched != [] && s.sched[0].time >= later) || (many && s.cfg.idleWait >= 0)), many)
  }

  lemma NothingReady(s: State, w: Wid, now: int, later: int)
    requires Indexed(s.pq) && Counted(s) && OnBusy(s, w) && Pop(s.pq, s.sched, now).Nothing?
    ensures IdlesOrLeaves(s, Dispatched(s, w, now, later), w, later, |s.idle|)
  {
    hide Indexed;
  }

  lemma FinishIdles(s: State, w: Wid, now: int, later: int)
    requires Core(s) && Legal(s, Finish(w, now, later))
    requires s.pq.q == [] && forall t :: t in s.sched ==> now < t.time
    ensures IdlesOrLeaves(s, Next(s, Finish(w, now, later)), w, later, |s.idle|)
  {
    hide Indexed, TimeSorted, Conserved;
    NothingReady(s, w, now, later);
  }

  lemma TakeIdles(s: State, w: Wid, now: int, later: int)
    requires Core(s) && Legal(s, Take(w, now, later))
    requires s.pq.q == [] && forall t :: t in s.sched ==> now < t.time
    ensures IdlesOrLeaves(s, Next(s, Take(w, now, later)), w, later, |s.idle| - if s.workers[w].pc.Woken? then 1 else 0)
  {
    hide Indexed, TimeSorted, Conserved;
    EnteredOnBusy(s, w);
    WithoutIsRemoval(s.idle, w);
    NothingReady(Entered(s, w), w, now, later);
  }

  // ---------- how large the pool gets ----------

  // No more threads than it started with, the maximum, and one; and without idle time no
  // more idle ones than wanted, in a pool that wants some.
  ghost predicate Bounded(s: State, most: nat) {
    && |s.workers| <= most && 1 <= most && s.cfg.thdMax <= most
    && (s.cfg.idleWait == 0 && s.cfg.idleMax > 0 ==> |s.idle| <= s.cfg.idleMax)
  }

  lemma WorkerBounded(s: State, w: Wid, now: int, later: int, most: nat)
    requires Indexed(s.pq) && Counted(s) && OnBusy(s, w) && Bounded(s, most)
    ensures Bounded(Dispatched(s, w, now, later), most)
  {
    hide Indexed;
    DispatchedCounted(s, w, now, later);
    if Pop(s.pq, s.sched, now).Nothing? {
      NothingReady(s, w, now, later);
    }
  }

  lemma NextBounded(s: State, step: Step, most: nat)
    requires Core(s) && Legal(s, step) && Bounded(s, most)
    ensures Bounded(Next(s, step), most)
  {
    hide Indexed, TimeSorted, Conserved;
    match step
    case AddTask(_, _, _, _, _) =>
      AddGrowsIff(s, step);
    case Schedule(_, _, _, _) =>
      ScheduleGrowsIff(s, step);
    case Take(w, now, later) =>
      EnteredOnBusy(s, w);
      WithoutIsRemoval(s.idle, w);
      WorkerBounded(Entered(s, w), w, now, later, most);
    case Finish(w, now, later) =>
      WorkerBounded(s, w, now, later, most);
    case Wake(w) =>
      WakeCounted(s, w);
    case _ =>
  }

  lemma {:induction false} BoundedRun(s: State, steps: seq<Step>, most: nat)
    requires Core(s) && LegalRun(s, steps) && Bounded(s, most)
    ensures Bounded(Exec(s, steps), most)
    decreases |steps|
  {
    hide Core, Legal, Bounded;
    if steps != [] {
      NextCore(s, steps[0]);
      NextBounded(s, steps[0], most);
      BoundedRun(Next(s, steps[0]), steps[1..], most);
    }
  }

  // Over every run from the start, whatever the clients do.
  lemma RunBounded(cfg: Config, ws: set<Wid>, steps: seq<Step>)
    requires LegalRun(Initial(cfg, ws), steps)
    ensures var r := Exec(Initial(cfg, ws), steps);
            && (|r.workers| <= |ws| || |r.workers| <= cfg.thdMax || |r.workers| <= 1)
            && (cfg.idleWait == 0 && cfg.idleMax > 0 ==> |r.idle| <= cfg.idleMax)
  {
    hide LegalRun, Exec, Core;
    InitialInv(cfg, ws);
    var most := if |ws| >= 1 then |ws| else 1;
    var bound := if cfg.thdMax > most then cfg.thdMax else most;
    assert Initial(cfg, ws).workers.Keys == ws;
    BoundedRun(Initial(cfg, ws), steps, bound);
    SameConfig(Initial(cfg, ws), steps);
  }

  // No step changes the configuration.
  lemma {:induction false} SameConfig(s: State, steps: seq<Step>)
    requires LegalRun(s, steps)
    ensures Exec(s, steps).cfg == s.cfg
    decreases |steps|
  {
    hide Legal;
    if steps != [] {
      NextConfig(s, steps[0]);
      SameConfig(Next(s, steps[0]), steps[1..]);
    }
  }

  lemma NextConfig(s: State, step: Step)
    requires Indexed(s.pq) && Legal(s, step)
    ensures Next(s, step).cfg == s.cfg
  {
    hide Indexed, Legal, Full, NeedsThread, AddPos, CancelFrom, SchedAdd, Others, Pop, Leaves, Without, Looked;
  }

  // ---------- waiting for the busy workers ----------

  // A canceller that looks has returned afterwards exactly when it had before, or no worker
  // runs a task for its owner; while the one worker it sleeps on does, it sleeps on.
  lemma LookReturnsIff(s: State, c: Cid, owner: int)
    requires Core(s) && c in s.cancels && s.cancels[c].owner == owner != 0
    ensures var r := Next(s, CancelLook(c)).cancels[c];
            && r.owner == owner
            && (r.Returned? <==>
                  (|| s.cancels[c].Returned?
                   || forall w :: w in s.workers && s.workers[w].pc.Running? ==> s.workers[w].pc.task.owner != owner))
            && (r.Sleeping? ==>
                  && r.target in s.workers && s.workers[r.target].pc.Running?
                  && s.workers[r.target].pc.task.owner == owner)
            && (s.cancels[c].Sleeping? && RunsFor(s, s.cancels[c].target, owner) ==> r == s.cancels[c])
  {
    hide Indexed, TimeSorted, Conserved;
    FirstBusyFinds(s, s.busy, owner);
    FirstBusyOwner(s, s.busy, owner);
  }

  lemma {:induction false} FirstBusyOwner(s: State, ring: seq<Wid>, owner: int)
    ensures FirstBusy(s, ring, owner) != [] ==> CurrentOwner(s, FirstBusy(s, ring, owner)[0]) == owner
  {
    if ring != [] {
      FirstBusyOwner(s, ring[1..], owner);
    }
  }
}
