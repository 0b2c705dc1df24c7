/** The worker protocol of `base_threadpool.c` as a state machine.

    Each step is one region under `me->lock`: a client adding, scheduling or
    cancelling, or a worker between acquiring the lock and releasing it.  The clock
    readings, the outcome of thread creation and the workers a condition-variable
    signal releases are chosen by the step.  Trimming and termination are not steps. */
module PoolProtocol {
  import opened Sequences
  import opened TaskOrder

  type Wid = int      // a worker thread's list element
  type Cid = int      // a client inside base_threadpool_cancel_tasks

  // Where a worker is whenever the lock is free.
  datatype Pc =
    | Starting                // created, has not yet taken the lock
    | Running(task: Task)     // inside task->func; current_owner is task.owner
    | Waiting(timed: bool)    // blocked on the condition variable
    | Woken                   // signalled or timed out, has not yet retaken the lock

  // `probation`: elt->state is TH_PROBATION rather than TH_RUN.
  datatype Worker = Worker(pc: Pc, probation: bool)

  datatype Cancel =
    | Scanning(owner: int)                 // about to walk the busy ring from its head
    | Sleeping(owner: int, target: Wid)    // waits for one worker's current_owner to change
    | Returned(owner: int)

  datatype Config = Config(thdMax: int, idleMax: int, idleWait: int, threshold: int, taskMax: int)

  datatype State = State(
    cfg: Config,
    pq: PQ, sched: seq<Task>,
    taskCnt: int, schedCnt: int, thdCnt: int, idleCnt: int,
    tasksRun: int, accepted: int, cancelled: int,
    busy: seq<Wid>, idle: seq<Wid>,
    workers: map<Wid, Worker>,
    cancels: map<Cid, Cancel>)

  datatype Step =
    | AddTask(t: Task, push: bool, spawn: Wid, spawnOk: bool, wake: set<Wid>)
    | Schedule(t: Task, spawn: Wid, spawnOk: bool, wake: set<Wid>)
    | Take(w: Wid, now: int, later: int)      // a started or woken worker enters its loop
    | Finish(w: Wid, now: int, later: int)    // a running worker is done with its task
    | Wake(w: Wid)                            // a timeout or a spurious wakeup
    | CancelBegin(c: Cid, owner: int)
    | CancelLook(c: Cid)

  // ---------- the rings of list elements ----------

  function Without(r: seq<Wid>, w: Wid): (q: seq<Wid>) {
    if r == [] then [] else if r[0] == w then r[1..] else [r[0]] + Without(r[1..], w)
  }

  lemma {:induction false} WithoutIsRemoval(r: seq<Wid>, w: Wid)
    requires Distinct(r)
    ensures Distinct(Without(r, w))
    ensures forall v :: v in Without(r, w) <==> v in r && v != w
    ensures |Without(r, w)| == if w in r then |r| - 1 else |r|
  {
    if r != [] {
      assert r == [r[0]] + r[1..];
      assert forall v :: v in r[1..] ==> v != r[0];
      WithoutIsRemoval(r[1..], w);
      if r[0] != w {
        var q := Without(r[1..], w);
        assert forall i :: 0 <= i < |q| ==> q[i] in q;
      }
    }
  }

  // ---------- client regions ----------

  // The test of add_task and schedule_task for one more thread.
  predicate NeedsThread(s: State) {
    s.thdCnt == 0 || (s.idleCnt == 0 && s.thdCnt < s.cfg.thdMax && s.taskCnt > s.cfg.threshold)
  }

  function Spawned(s: State, need: bool, w: Wid, ok: bool): State {
    if need && ok then s.(thdCnt := s.thdCnt + 1, workers := s.workers[w := Worker(Starting, false)])
    else s
  }

  // base_signal_threadcond: the workers in `wake` leave their wait.
  function Signalled(s: State, wake: set<Wid>): State {
    s.(workers := map w | w in s.workers ::
      if w in wake then s.workers[w].(pc := Woken) else s.workers[w])
  }

  predicate Full(s: State) {
    s.cfg.taskMax != 0 && s.taskCnt >= s.cfg.taskMax
  }

  function Added(s: State, t: Task, push: bool): State
    requires Indexed(s.pq)
  {
    s.(pq := Add(s.pq, t, push), taskCnt := s.taskCnt + 1, accepted := s.accepted + 1)
  }

  function Scheduled(s: State, t: Task): State {
    s.(sched := SchedAdd(s.sched, t), schedCnt := s.schedCnt + 1, accepted := s.accepted + 1)
  }

  // The locked region of base_threadpool_cancel_tasks.
  function Cancelled(s: State, owner: int): State
    requires Indexed(s.pq)
  {
    var pq := if s.taskCnt > 0 then CancelFrom(s.pq, 0, owner) else s.pq;
    var sched := if s.schedCnt > 0 then Others(s.sched, owner) else s.sched;
    s.(pq := pq, taskCnt := |pq.q|, sched := sched, schedCnt := |sched|,
       cancelled := s.cancelled + (s.taskCnt - |pq.q|) + (s.schedCnt - |sched|))
  }

  // ---------- worker regions ----------

  // From pop_task on, for a worker already on the busy ring.
  function Dispatched(s: State, w: Wid, now: int, later: int): State
    requires Indexed(s.pq) && w in s.workers
  {
    match Pop(s.pq, s.sched, now)
    case Due(t) =>
      s.(sched := PopSched(s.pq, s.sched, now), schedCnt := s.schedCnt - 1, tasksRun := s.tasksRun + 1,
         workers := s.workers[w := s.workers[w].(pc := Running(t))])
    case Ready(t) =>
      s.(pq := PopQueue(s.pq, s.sched, now), taskCnt := s.taskCnt - 1, tasksRun := s.tasksRun + 1,
         workers := s.workers[w := s.workers[w].(pc := Running(t))])
    case Nothing =>
      var r := s.(busy := Without(s.busy, w));
      if Leaves(r, w) then r.(thdCnt := r.thdCnt - 1, workers := r.workers - {w})
      else Idled(r.(idleCnt := r.idleCnt + 1, idle := r.idle + [w]), w, later)
  }

  // The test for leaving the pool.
  predicate Leaves(s: State, w: Wid)
    requires w in s.workers
  {
    || (s.idleCnt >= s.cfg.idleMax && !(s.schedCnt != 0 && 0 >= s.cfg.idleMax) && s.cfg.idleWait == 0)
    || s.workers[w].probation
  }

  // Choosing how to wait.
  function Idled(s: State, w: Wid, later: int): State
    requires w in s.workers
  {
    var e := s.workers[w];
    if s.schedCnt != 0 then
      s.(workers := s.workers[w := e.(pc := Waiting(s.sched != [] && s.sched[0].time - later >= 0))])
    else if s.idleCnt > s.cfg.idleMax then
      s.(workers := s.workers[w := Worker(Waiting(s.cfg.idleWait >= 0), true)])
    else
      s.(workers := s.workers[w := e.(pc := Waiting(false))])
  }

  // Leaving the idle ring, if on it, and joining the busy ring.
  function Entered(s: State, w: Wid): State
    requires w in s.workers
  {
    var r := if s.workers[w].pc.Woken? then s.(idleCnt := s.idleCnt - 1, idle := Without(s.idle, w)) else s;
    r.(busy := r.busy + [w])
  }

  // ---------- wait_on_busy_threads ----------

  predicate RunsFor(s: State, w: Wid, owner: int) {
    w in s.workers && s.workers[w].pc.Running? && s.workers[w].pc.task.owner == owner
  }

  // elt->current_owner: NULL (0) unless the worker runs a task.
  function CurrentOwner(s: State, w: Wid): int {
    if w in s.workers && s.workers[w].pc.Running? then s.workers[w].pc.task.owner else 0
  }

  // The first element of the busy ring with this owner.
  function FirstBusy(s: State, ring: seq<Wid>, owner: int): (r: seq<Wid>) {
    if ring == [] then []
    else if CurrentOwner(s, ring[0]) == owner then ring[..1]
    else FirstBusy(s, ring[1..], owner)
  }

  function Scanned(s: State, owner: int): Cancel {
    var hit := FirstBusy(s, s.busy, owner);
    if hit == [] then Returned(owner) else Sleeping(owner, hit[0])
  }

  function Looked(s: State, c: Cancel): Cancel {
    match c
    case Scanning(owner) => Scanned(s, owner)
    case Sleeping(owner, target) => if CurrentOwner(s, target) == owner then c else Scanned(s, owner)
    case Returned(_) => c
  }

  function AfterLook(s: State, c: Cid): State
    requires c in s.cancels
  {
    s.(cancels := s.cancels[c := Looked(s, s.cancels[c])])
  }

  // ---------- steps and runs ----------

  ghost predicate Signals(s: State, wake: set<Wid>) {
    && (forall w :: w in wake ==> w in s.workers && s.workers[w].pc.Waiting?)
    && (wake == {} ==> forall w :: w in s.workers ==> !s.workers[w].pc.Waiting?)
  }

  ghost predicate Legal(s: State, step: Step) {
    match step
    case AddTask(t, push, spawn, ok, wake) => spawn !in s.workers && Signals(s, wake)
    case Schedule(t, spawn, ok, wake) => spawn !in s.workers && Signals(s, wake)
    case Take(w, now, later) => w in s.workers && (s.workers[w].pc.Starting? || s.workers[w].pc.Woken?) && now <= later
    case Finish(w, now, later) => w in s.workers && s.workers[w].pc.Running? && now <= later
    case Wake(w) => w in s.workers && s.workers[w].pc.Waiting?
    case CancelBegin(c, owner) => c in s.cancels ==> s.cancels[c].Returned?
    case CancelLook(c) => c in s.cancels
  }

  function Next(s: State, step: Step): State
    requires Indexed(s.pq) && Legal(s, step)
  {
    match step
    case AddTask(t, push, spawn, ok, wake) =>
      if Full(s) then s
      else
        var r := Added(s, t, push);
        Signalled(Spawned(r, NeedsThread(r), spawn, ok), wake)
    case Schedule(t, spawn, ok, wake) =>
      var r := Scheduled(s, t);
      Signalled(Spawned(r, r.thdCnt == 0, spawn, ok), wake)
    case Take(w, now, later) => Dispatched(Entered(s, w), w, now, later)
    case Finish(w, now, later) => Dispatched(s, w, now, later)
    case Wake(w) => s.(workers := s.workers[w := s.workers[w].(pc := Woken)])
    case CancelBegin(c, owner) =>
      var r := Cancelled(s, owner);
      r.(cancels := r.cancels[c := Scanning(owner)])
    case CancelLook(c) => AfterLook(s, c)
  }

  // ---------- the invariant ----------

  ghost predicate Counted(s: State) {
    && s.taskCnt == |s.pq.q| && s.schedCnt == |s.sched|
    && s.idleCnt == |s.idle| && s.thdCnt == |s.workers|
  }

  // Every live worker is in exactly one place: running and on the busy ring,
  // waiting or woken and on the idle ring, or starting and on neither.
  ghost predicate Placed(s: State) {
    && Distinct(s.busy) && Distinct(s.idle)
    && (forall w :: w in s.busy <==> w in s.workers && s.workers[w].pc.Running?)
    && (forall w :: w in s.idle <==> w in s.workers && (s.workers[w].pc.Waiting? || s.workers[w].pc.Woken?))
  }

  // No accepted task is unaccounted for.
  ghost predicate Conserved(s: State) {
    s.accepted == s.tasksRun + s.taskCnt + s.schedCnt + s.cancelled
  }

  predicate Active(s: State, w: Wid) {
    w in s.workers && !s.workers[w].pc.Waiting?
  }

  // Queued work is never left to sleeping workers.
  ghost predicate Attended(s: State) {
    s.taskCnt > 0 ==> exists w :: Active(s, w)
  }

  // What every step keeps, whether or not threads can be created.
  ghost predicate Core(s: State) {
    Indexed(s.pq) && TimeSorted(s.sched) && Counted(s) && Placed(s) && Conserved(s)
  }

  ghost predicate Inv(s: State) {
    Core(s) && Attended(s)
  }

  // The pool as base_init_threadpool leaves it, its first threads just created.
  function Initial(cfg: Config, ws: set<Wid>): State {
    State(cfg, EMPTY, [], 0, 0, |ws|, 0, 0, 0, 0, [], [], map w | w in ws :: Worker(Starting, false), map[])
  }

  lemma InitialInv(cfg: Config, ws: set<Wid>)
    ensures Inv(Initial(cfg, ws))
  {
    var s := Initial(cfg, ws);
    assert s.workers.Keys == ws;
  }

  // ---------- preservation, piece by piece ----------

  lemma SpawnedPlaced(s: State, need: bool, w: Wid, ok: bool)
    requires Placed(s) && w !in s.workers
    ensures Placed(Spawned(s, need, w, ok))
  {
  }

  lemma SpawnedCounted(s: State, need: bool, w: Wid, ok: bool)
    requires Counted(s) && w !in s.workers
    ensures Counted(Spawned(s, need, w, ok))
  {
  }

  lemma SignalledPlaced(s: State, wake: set<Wid>)
    requires Placed(s)
    requires forall w :: w in wake && w in s.workers ==> s.workers[w].pc.Waiting?
    ensures Placed(Signalled(s, wake))
  {
  }

  lemma SignalledCounted(s: State, wake: set<Wid>)
    requires Counted(s)
    ensures Counted(Signalled(s, wake))
  {
    assert Signalled(s, wake).workers.Keys == s.workers.Keys;
  }

  // A worker on the busy ring, its list element on no other ring.
  ghost predicate OnBusy(s: State, w: Wid) {
    && w in s.workers && w in s.busy && w !in s.idle
    && Distinct(s.busy) && Distinct(s.idle)
    && (forall v :: v in s.busy <==> v == w || (v in s.workers && s.workers[v].pc.Running?))
    && (forall v :: v in s.idle <==> v != w && v in s.workers && (s.workers[v].pc.Waiting? || s.workers[v].pc.Woken?))
  }

  lemma EnteredOnBusy(s: State, w: Wid)
    requires Counted(s) && Placed(s) && w in s.workers && !s.workers[w].pc.Running? && !s.workers[w].pc.Waiting?
    ensures Counted(Entered(s, w)) && OnBusy(Entered(s, w), w)
  {
    WithoutIsRemoval(s.idle, w);
  }

  lemma DispatchedPlaced(s: State, w: Wid, now: int, later: int)
    requires Indexed(s.pq) && Counted(s) && OnBusy(s, w)
    ensures Placed(Dispatched(s, w, now, later))
  {
    hide Indexed, RemoveAt;
    WithoutIsRemoval(s.busy, w);
    var r := Dispatched(s, w, now, later);
    if Pop(s.pq, s.sched, now).Nothing? {
      IdlePlaced(s, w, r, later);
    } else {
      assert r.busy == s.busy && r.idle == s.idle && r.workers[w].pc.Running?;
      assert forall v :: v != w ==> (v in r.workers <==> v in s.workers) && (v in s.workers ==> r.workers[v] == s.workers[v]);
    }
  }

  // A worker that found nothing.
  lemma IdlePlaced(s: State, w: Wid, r: State, later: int)
    requires Counted(s) && OnBusy(s, w)
    requires var b := s.(busy := Without(s.busy, w));
             r == if Leaves(b, w) then b.(thdCnt := b.thdCnt - 1, workers := b.workers - {w})
                  else Idled(b.(idleCnt := b.idleCnt + 1, idle := b.idle + [w]), w, later)
    ensures Placed(r)
  {
    WithoutIsRemoval(s.busy, w);
    assert forall v :: v != w ==> (v in r.workers <==> v in s.workers) && (v in s.workers ==> r.workers[v] == s.workers[v]);
    assert w in r.workers ==> r.workers[w].pc.Waiting? && r.idle == s.idle + [w];
    assert w !in r.workers ==> r.idle == s.idle;
  }

  lemma DispatchedCounted(s: State, w: Wid, now: int, later: int)
    requires Indexed(s.pq) && Counted(s) && OnBusy(s, w)
    ensures Counted(Dispatched(s, w, now, later))
  {
    hide Indexed;
  }

  // ---------- every step keeps the invariant ----------

  lemma CancelledCore(s: State, owner: int)
    requires Core(s)
    ensures Core(Cancelled(s, owner))
    ensures Cancelled(s, owner).pq.q == Others(s.pq.q, owner) && Cancelled(s, owner).sched == Others(s.sched, owner)
    ensures Cancelled(s, owner).taskCnt <= s.taskCnt
  {
    hide Indexed;
    CancelFromIsOthers(s.pq, 0, owner);
    assert s.pq.q[..0] + Others(s.pq.q[0..], owner) == Others(s.pq.q, owner) by { assert s.pq.q[0..] == s.pq.q; }
    OthersTimeSorted(s.sched, owner);
    OthersShorter(s.pq.q, owner);
  }

  lemma {:induction false} OthersShorter(q: seq<Task>, owner: int)
    ensures |Others(q, owner)| <= |q|
  {
    if q != [] {
      OthersShorter(q[1..], owner);
    }
  }

  lemma DispatchedCore(s: State, w: Wid, now: int, later: int)
    requires Indexed(s.pq) && TimeSorted(s.sched) && Counted(s) && Conserved(s) && OnBusy(s, w)
    ensures Core(Dispatched(s, w, now, later))
    ensures Attended(Dispatched(s, w, now, later))
  {
    DispatchedPlaced(s, w, now, later);
    DispatchedCounted(s, w, now, later);
    hide Indexed, Placed, OnBusy, PopQueue;
    var r := Dispatched(s, w, now, later);
    if r.taskCnt > 0 {
      assert Active(r, w);
    }
  }

  lemma AddedCore(s: State, t: Task, push: bool, need: bool, spawn: Wid, ok: bool, wake: set<Wid>)
    requires Core(s) && spawn !in s.workers && Signals(s, wake)
    ensures Core(Signalled(Spawned(Added(s, t, push), need, spawn, ok), wake))
  {
    AddIndexed(s.pq, t, push);
    var r := Added(s, t, push);
    assert Counted(r) && Placed(r);
    SpawnedPlaced(r, need, spawn, ok);
    SpawnedCounted(r, need, spawn, ok);
    SignalledPlaced(Spawned(r, need, spawn, ok), wake);
    SignalledCounted(Spawned(r, need, spawn, ok), wake);
  }

  lemma ScheduledCore(s: State, t: Task, need: bool, spawn: Wid, ok: bool, wake: set<Wid>)
    requires Core(s) && spawn !in s.workers && Signals(s, wake)
    ensures Core(Signalled(Spawned(Scheduled(s, t), need, spawn, ok), wake))
  {
    hide Indexed;
    SchedAddStable(s.sched, t);
    var r := Scheduled(s, t);
    assert Counted(r) && Placed(r);
    SpawnedPlaced(r, need, spawn, ok);
    SpawnedCounted(r, need, spawn, ok);
    SignalledPlaced(Spawned(r, need, spawn, ok), wake);
    SignalledCounted(Spawned(r, need, spawn, ok), wake);
  }

  lemma EnteredDispatched(s: State, w: Wid, now: int, later: int)
    requires Core(s) && w in s.workers && (s.workers[w].pc.Starting? || s.workers[w].pc.Woken?)
    ensures Core(Dispatched(Entered(s, w), w, now, later)) && Attended(Dispatched(Entered(s, w), w, now, later))
  {
    hide Indexed;
    EnteredOnBusy(s, w);
    DispatchedCore(Entered(s, w), w, now, later);
  }

  lemma NextCore(s: State, step: Step)
    requires Core(s) && Legal(s, step)
    ensures Core(Next(s, step))
  {
    hide Indexed, Counted, TimeSorted;
    match step
    case AddTask(t, push, spawn, ok, wake) => AddedCore(s, t, push, NeedsThread(Added(s, t, push)), spawn, ok, wake);
    case Schedule(t, spawn, ok, wake) => ScheduledCore(s, t, s.thdCnt == 0, spawn, ok, wake);
    case Take(w, now, later) => EnteredDispatched(s, w, now, later);
    case Finish(w, now, later) => DispatchedCore(s, w, now, later);
    case Wake(w) => WakeCounted(s, w);
    case CancelBegin(c, owner) => CancelledCore(s, owner); CancelsDoNotCount(Cancelled(s, owner), Next(s, step));
    case CancelLook(c) => CancelsDoNotCount(s, Next(s, step));
  }

  lemma WakeCounted(s: State, w: Wid)
    requires Counted(s) && w in s.workers
    ensures Counted(s.(workers := s.workers[w := s.workers[w].(pc := Woken)]))
  {
    assert s.workers[w := s.workers[w].(pc := Woken)].Keys == s.workers.Keys;
  }

  lemma CancelsDoNotCount(s: State, r: State)
    requires r == s.(cancels := r.cancels)
    ensures Counted(s) ==> Counted(r)
    ensures Core(s) ==> Core(r)
  {
  }

  // ---------- no lost work ----------

  // After add_task has queued a task, some worker is starting, running or woken
  // exactly when the pool had a thread or could create one.
  lemma AddAttendedIff(s: State, step: Step)
    requires Inv(s) && Legal(s, step) && step.AddTask? && !Full(s)
    ensures Attended(Next(s, step)) <==> s.thdCnt > 0 || step.spawnOk
  {
    hide Indexed, Placed, TimeSorted;
    var r, wake := Next(s, step), step.wake;
    if s.thdCnt > 0 {
      assert |s.workers.Keys| > 0;
      var w := Pick(s.workers.Keys);
      if Active(s, w) {
        assert Active(r, w);
      } else {
        var v := SignalWakes(s, wake, w);
        assert Active(r, v);
      }
    } else if step.spawnOk {
      assert NeedsThread(Added(s, step.t, step.push));
      assert Active(r, step.spawn);
    } else {
      assert s.workers == map[];
      assert r.workers == map[];
    }
  }

  lemma SignalWakes(s: State, wake: set<Wid>, w: Wid) returns (v: Wid)
    requires Signals(s, wake) && w in s.workers && s.workers[w].pc.Waiting?
    ensures v in wake && v in s.workers
  {
    assert wake != {};
    v := Pick(wake);
  }

  lemma SignalKeepsActive(s: State, spawn: Wid, need: bool, ok: bool, wake: set<Wid>)
    requires Attended(s) && spawn !in s.workers
    ensures Attended(Signalled(Spawned(s, need, spawn, ok), wake))
  {
    if s.taskCnt > 0 {
      var w :| Active(s, w);
      assert Active(Signalled(Spawned(s, need, spawn, ok), wake), w);
    }
  }

  // A pool without threads whose first add cannot create one: the task stays queued
  // with nobody to run it.
  lemma WorkCanBeLost(cfg: Config, t: Task)
    requires cfg.taskMax == 0
    ensures var steps := [AddTask(t, false, 0, false, {})];
            && LegalRun(Initial(cfg, {}), steps)
            && Exec(Initial(cfg, {}), steps).taskCnt == 1 && !Attended(Exec(Initial(cfg, {}), steps))
  {
    var s, step := Initial(cfg, {}), AddTask(t, false, 0, false, {});
    InitialInv(cfg, {});
    assert s.workers == map[];
    AddAttendedIff(s, step);
    assert [step][1..] == [];
  }

  // The one thing asked of the environment: an add to a pool without threads can
  // create one.
  predicate Staffed(s: State, step: Step) {
    step.AddTask? && !Full(s) ==> s.thdCnt > 0 || step.spawnOk
  }

  lemma NextInv(s: State, step: Step)
    requires Inv(s) && Legal(s, step) && Staffed(s, step)
    ensures Inv(Next(s, step))
  {
    NextCore(s, step);
    hide Core, Indexed, Counted;
    match step
    case AddTask(t, push, spawn, ok, wake) => if !Full(s) { AddAttendedIff(s, step); }
    case Schedule(t, spawn, ok, wake) =>
      SameWorkersAttended(s, Scheduled(s, t));
      SignalKeepsActive(Scheduled(s, t), spawn, s.thdCnt == 0, ok, wake);
    case Take(w, now, later) => EnteredDispatched(s, w, now, later);
    case Finish(w, now, later) => FinishAttended(s, w, now, later);
    case Wake(w) => if s.taskCnt > 0 { assert Active(Next(s, step), w); }
    case CancelBegin(c, owner) => CancelledCore(s, owner); SameWorkersAttended(s, Next(s, step));
    case CancelLook(c) => SameWorkersAttended(s, Next(s, step));
  }

  lemma FinishAttended(s: State, w: Wid, now: int, later: int)
    requires Core(s) && w in s.workers && s.workers[w].pc.Running?
    ensures Attended(Dispatched(s, w, now, later))
  {
    hide Indexed;
    DispatchedCore(s, w, now, later);
  }

  lemma SameWorkersAttended(s: State, r: State)
    requires Attended(s) && r.workers == s.workers && r.taskCnt <= s.taskCnt
    ensures Attended(r)
  {
    if r.taskCnt > 0 {
      var w :| Active(s, w);
      assert Active(r, w);
    }
  }

  // ---------- whole runs ----------

  ghost predicate LegalRun(s: State, steps: seq<Step>)
    decreases |steps|
  {
    steps != [] ==> Indexed(s.pq) && Legal(s, steps[0]) && LegalRun(Next(s, steps[0]), steps[1..])
  }

  ghost function Exec(s: State, steps: seq<Step>): State
    requires LegalRun(s, steps)
    decreases |steps|
  {
    if steps == [] then s else Exec(Next(s, steps[0]), steps[1..])
  }

  ghost predicate StaffedRun(s: State, steps: seq<Step>)
    requires LegalRun(s, steps)
    decreases |steps|
  {
    steps != [] ==> Staffed(s, steps[0]) && StaffedRun(Next(s, steps[0]), steps[1..])
  }

  // Over every interleaving of workers and clients the counters are the ring
  // lengths, every live worker is in exactly one place, every accepted task is run,
  // queued, scheduled or cancelled, and queued work always has an active worker.
  lemma {:induction false} NoLostWork(s: State, steps: seq<Step>)
    requires Inv(s) && LegalRun(s, steps) && StaffedRun(s, steps)
    ensures Inv(Exec(s, steps))
    decreases |steps|
  {
    hide Inv, Staffed, Legal;
    if steps != [] {
      NextInvStaffed(s, steps[0]);
      NoLostWork(Next(s, steps[0]), steps[1..]);
    }
  }

  // In every state of the run queued work has an active worker.
  ghost predicate AttendedRun(s: State, steps: seq<Step>)
    requires LegalRun(s, steps)
    decreases |steps|
  {
    Attended(s) && (steps != [] ==> AttendedRun(Next(s, steps[0]), steps[1..]))
  }

  // Over every run, queued work is never left to sleeping workers if and only if every
  // accepted add to a pool without threads can create one.
  lemma {:induction false} NoLostWorkIff(s: State, steps: seq<Step>)
    requires Inv(s) && LegalRun(s, steps)
    ensures AttendedRun(s, steps) <==> StaffedRun(s, steps)
    decreases |steps|
  {
    hide Core, Attended, Staffed, Legal, Next;
    if steps != [] {
      NextCore(s, steps[0]);
      NextAttendedIff(s, steps[0]);
      assert AttendedRun(Next(s, steps[0]), steps[1..]) ==> Attended(Next(s, steps[0]));
      if Staffed(s, steps[0]) {
        NoLostWorkIff(Next(s, steps[0]), steps[1..]);
      }
    }
  }

  lemma NextAttendedIff(s: State, step: Step)
    requires Inv(s) && Legal(s, step)
    ensures Attended(Next(s, step)) <==> Staffed(s, step)
  {
    hide Core, Attended, Legal, Next;
    if Staffed(s, step) {
      NextInv(s, step);
    } else {
      AddAttendedIff(s, step);
    }
  }

  lemma NextInvStaffed(s: State, step: Step)
    requires Inv(s) && Legal(s, step) && Staffed(s, step)
    ensures Indexed(s.pq) && Inv(Next(s, step))
  {
    NextInv(s, step);
  }

  ghost predicate GuardedStep(s: State, step: Step)
    requires Indexed(s.pq)
  {
    step.AddTask? ==> InRange(step.t) && (step.push ==> PushOk(s.pq, step.t))
  }

  lemma NextOrdered(s: State, step: Step)
    requires Core(s) && WellIndexed(s.pq) && Legal(s, step) && GuardedStep(s, step)
    ensures Core(Next(s, step)) && WellIndexed(Next(s, step).pq)
  {
    NextCore(s, step);
    hide Core, WellIndexed, Counted, Placed, Dispatched;
    match step
    case AddTask(t, push, spawn, ok, wake) => AddKeepsIndexIff(s.pq, t, push);
    case Schedule(t, spawn, ok, wake) =>
    case Take(w, now, later) =>
      DispatchedQueues(Entered(s, w), w, now, later);
      PopKeepsIndex(s.pq, s.sched, now);
    case Finish(w, now, later) =>
      DispatchedQueues(s, w, now, later);
      PopKeepsIndex(s.pq, s.sched, now);
    case Wake(w) =>
    case CancelBegin(c, owner) => CancelFromKeepsIndex(s.pq, 0, owner);
    case CancelLook(c) =>
  }

  // The queues and the worker after a dispatch, in terms of pop_task.
  lemma DispatchedQueues(s: State, w: Wid, now: int, later: int)
    requires Indexed(s.pq) && w in s.workers
    ensures var r := Dispatched(s, w, now, later);
            && r.pq == PopQueue(s.pq, s.sched, now) && r.sched == PopSched(s.pq, s.sched, now)
            && match Pop(s.pq, s.sched, now)
               case Due(t) => w in r.workers && r.workers[w].pc == Running(t)
               case Ready(t) => w in r.workers && r.workers[w].pc == Running(t)
               case Nothing => w in r.workers ==> r.workers[w].pc.Waiting?
  {
  }

  ghost predicate GuardedRun(s: State, steps: seq<Step>)
    requires LegalRun(s, steps)
    decreases |steps|
  {
    steps != [] ==> GuardedStep(s, steps[0]) && GuardedRun(Next(s, steps[0]), steps[1..])
  }

  // Along every guarded run the pool stays a priority queue.
  lemma {:induction false} RunOrdered(s: State, steps: seq<Step>)
    requires Core(s) && WellIndexed(s.pq) && LegalRun(s, steps) && GuardedRun(s, steps)
    ensures Core(Exec(s, steps)) && WellIndexed(Exec(s, steps).pq)
    decreases |steps|
  {
    hide Core, WellIndexed, Legal, GuardedStep;
    if steps != [] {
      NextOrdered(s, steps[0]);
      RunOrdered(Next(s, steps[0]), steps[1..]);
    }
  }

  lemma PopKeepsIndex(pq: PQ, sched: seq<Task>, now: int)
    requires Indexed(pq) && WellIndexed(pq)
    ensures WellIndexed(PopQueue(pq, sched, now))
  {
    if Pop(pq, sched, now).Ready? {
      RemoveAtKeepsIndex(pq, 0);
    }
  }

  // ---------- what workers are handed ----------

  // Along every legal run, guarded or not and whether or not threads can be created,
  // the counters, the places, the time order and the balance of tasks are right.
  lemma {:induction false} RunCore(s: State, steps: seq<Step>)
    requires Core(s) && LegalRun(s, steps)
    ensures Core(Exec(s, steps))
    decreases |steps|
  {
    hide Core, Legal;
    if steps != [] {
      NextCore(s, steps[0]);
      RunCore(Next(s, steps[0]), steps[1..]);
    }
  }

  // ---------- every accepted task, once ----------

  // The tasks waiting to run.
  function Pending(s: State): multiset<Task> {
    multiset(s.pq.q) + multiset(s.sched)
  }

  // The task a step accepts.
  function AcceptedBy(s: State, step: Step): multiset<Task> {
    match step
    case AddTask(t, push, spawn, ok, wake) => if Full(s) then multiset{} else multiset{t}
    case Schedule(t, spawn, ok, wake) => multiset{t}
    case _ => multiset{}
  }

  // The task that the worker of a step runs after it.
  function StartedBy(s: State, step: Step): multiset<Task>
    requires Indexed(s.pq) && Legal(s, step)
  {
    if Looks(step) && step.w in Next(s, step).workers && Next(s, step).workers[step.w].pc.Running? then
      multiset{Next(s, step).workers[step.w].pc.task}
    else multiset{}
  }

  function Mine(q: seq<Task>, owner: int): seq<Task> {
    if q == [] then [] else (if q[0].owner == owner then [q[0]] else []) + Mine(q[1..], owner)
  }

  // The tasks a step cancels.
  function CancelledBy(s: State, step: Step): multiset<Task> {
    if step.CancelBegin? then multiset(Mine(s.pq.q, step.owner)) + multiset(Mine(s.sched, step.owner)) else multiset{}
  }

  lemma {:induction false} OthersAndMine(q: seq<Task>, owner: int)
    ensures multiset(q) == multiset(Others(q, owner)) + multiset(Mine(q, owner))
  {
    if q != [] {
      OthersAndMine(q[1..], owner);
      assert q == [q[0]] + q[1..];
    }
  }

  lemma Inserted(q: seq<Task>, j: nat, t: Task)
    requires j <= |q|
    ensures multiset(q[..j] + [t] + q[j..]) == multiset(q) + multiset{t}
  {
    assert q == q[..j] + q[j..];
  }

  lemma DispatchedPending(s: State, w: Wid, now: int, later: int)
    requires Indexed(s.pq) && w in s.workers
    ensures var r := Dispatched(s, w, now, later);
            Pending(s) == Pending(r) + if w in r.workers && r.workers[w].pc.Running? then multiset{r.workers[w].pc.task} else multiset{}
  {
    hide Indexed, Dispatched, Add, RemoveAt;
    DispatchedQueues(s, w, now, later);
    PopTakesOne(s.pq, s.sched, now);
  }

  lemma AddedPending(s: State, t: Task, push: bool)
    requires Indexed(s.pq)
    ensures multiset(Add(s.pq, t, push).q) == multiset(s.pq.q) + multiset{t}
    ensures Pending(Added(s, t, push)) == Pending(s) + multiset{t}
  {
    Inserted(s.pq.q, AddPos(s.pq, t, push), t);
  }

  lemma ScheduledPending(s: State, t: Task)
    ensures multiset(SchedAdd(s.sched, t)) == multiset(s.sched) + multiset{t}
    ensures Pending(Scheduled(s, t)) == Pending(s) + multiset{t}
  {
    Inserted(s.sched, SchedPos(s.sched, 0, t.time), t);
  }

  lemma CancelledPending(s: State, owner: int)
    requires Core(s)
    ensures Pending(s) == Pending(Cancelled(s, owner)) + (multiset(Mine(s.pq.q, owner)) + multiset(Mine(s.sched, owner)))
  {
    hide Core, Mine, Others, Cancelled;
    CancelledCore(s, owner);
    OthersAndMine(s.pq.q, owner);
    OthersAndMine(s.sched, owner);
  }

  // What waits and what a step accepts is what waits afterwards and what the step starts
  // and cancels.
  ghost predicate Balanced(s: State, step: Step)
    requires Indexed(s.pq) && Legal(s, step)
  {
    Pending(s) + AcceptedBy(s, step) == Pending(Next(s, step)) + StartedBy(s, step) + CancelledBy(s, step)
  }

  lemma AddBalanced(s: State, step: Step)
    requires Indexed(s.pq) && Legal(s, step) && step.AddTask?
    ensures Balanced(s, step)
  {
    hide Indexed, Add, Pending;
    AddedPending(s, step.t, step.push);
    SamePending(if Full(s) then s else Added(s, step.t, step.push), Next(s, step));
  }

  lemma ScheduleBalanced(s: State, step: Step)
    requires Indexed(s.pq) && Legal(s, step) && step.Schedule?
    ensures Balanced(s, step)
  {
    hide Indexed, SchedAdd, Pending;
    ScheduledPending(s, step.t);
    SamePending(Scheduled(s, step.t), Next(s, step));
  }

  lemma CancelBalanced(s: State, step: Step)
    requires Indexed(s.pq) && Core(s) && Legal(s, step) && step.CancelBegin?
    ensures Balanced(s, step)
  {
    hide Indexed, Core, Mine, Cancelled, Pending;
    CancelledPending(s, step.owner);
    SamePending(Cancelled(s, step.owner), Next(s, step));
  }

  lemma QuietBalanced(s: State, step: Step)
    requires Indexed(s.pq) && Legal(s, step) && (step.Wake? || step.CancelLook?)
    ensures Balanced(s, step)
  {
    hide Indexed, Pending;
    SamePending(s, Next(s, step));
  }

  lemma SamePending(s: State, r: State)
    ensures r.pq == s.pq && r.sched == s.sched ==> Pending(r) == Pending(s)
  {
  }

  lemma WorkerBalanced(s: State, step: Step)
    requires Indexed(s.pq) && Legal(s, step) && Looks(step)
    ensures Balanced(s, step)
  {
    hide Indexed, Dispatched, Pending;
    match step
    case Take(w, now, later) =>
      SamePending(s, Entered(s, w));
      DispatchedPending(Entered(s, w), w, now, later);
    case Finish(w, now, later) => DispatchedPending(s, w, now, later);
  }

  lemma NextPending(s: State, step: Step)
    requires Core(s) && Legal(s, step)
    ensures Balanced(s, step)
  {
    hide Indexed, Legal, Next, Pending, StartedBy, Counted, Placed, TimeSorted, Balanced;
    match step
    case AddTask(t, push, spawn, ok, wake) => AddBalanced(s, step);
    case Schedule(t, spawn, ok, wake) => ScheduleBalanced(s, step);
    case Take(w, now, later) => WorkerBalanced(s, step);
    case Finish(w, now, later) => WorkerBalanced(s, step);
    case Wake(w) => QuietBalanced(s, step);
    case CancelBegin(c, owner) => CancelBalanced(s, step);
    case CancelLook(c) => QuietBalanced(s, step);
  }

  // Two balances add up.
  lemma Balance(p: multiset<Task>, a: multiset<Task>, q: multiset<Task>, b: multiset<Task>, c: multiset<Task>,
                a': multiset<Task>, b': multiset<Task>, c': multiset<Task>, r: multiset<Task>)
    requires p + a == q + b + c && q + a' == b' + c' + r
    ensures p + (a + a') == (b + b') + (c + c') + r
  {
    forall t
      ensures (p + (a + a'))[t] == ((b + b') + (c + c') + r)[t]
    {
      assert (p + a)[t] == (q + b + c)[t] && (q + a')[t] == (b' + c' + r)[t];
    }
  }

  // The tasks accepted, started and cancelled in a run.
  ghost function AllAccepted(s: State, steps: seq<Step>): multiset<Task>
    requires LegalRun(s, steps)
    decreases |steps|
  {
    if steps == [] then multiset{} else AcceptedBy(s, steps[0]) + AllAccepted(Next(s, steps[0]), steps[1..])
  }

  ghost function AllStarted(s: State, steps: seq<Step>): multiset<Task>
    requires LegalRun(s, steps)
    decreases |steps|
  {
    if steps == [] then multiset{} else StartedBy(s, steps[0]) + AllStarted(Next(s, steps[0]), steps[1..])
  }

  ghost function AllCancelled(s: State, steps: seq<Step>): multiset<Task>
    requires LegalRun(s, steps)
    decreases |steps|
  {
    if steps == [] then multiset{} else CancelledBy(s, steps[0]) + AllCancelled(Next(s, steps[0]), steps[1..])
  }

  // Over every run the tasks that waited at the start or were accepted are those that
  // have been started, have been cancelled or still wait: none is lost, none is started
  // twice.
  lemma {:induction false} RunConservesTasks(s: State, steps: seq<Step>)
    requires Core(s) && LegalRun(s, steps)
    ensures Pending(s) + AllAccepted(s, steps)
         == AllStarted(s, steps) + AllCancelled(s, steps) + Pending(Exec(s, steps))
    decreases |steps|
  {
    hide Core, Legal, Next, Pending, AcceptedBy, StartedBy, CancelledBy;
    if steps != [] {
      NextCore(s, steps[0]);
      var r := Next(s, steps[0]);
      NextPending(s, steps[0]);
      RunConservesTasks(r, steps[1..]);
      Balance(Pending(s), AcceptedBy(s, steps[0]), Pending(r), StartedBy(s, steps[0]), CancelledBy(s, steps[0]),
              AllAccepted(r, steps[1..]), AllStarted(r, steps[1..]), AllCancelled(r, steps[1..]), Pending(Exec(r, steps[1..])));
    }
  }

  // Worker w has looked for a task at time `now`: it runs a scheduled task that is due
  // and the earliest of all, or a priority task while nothing scheduled is due, and
  // that task has left its queue; or nothing was ready.
  ghost predicate TakesBest(s: State, r: State, w: Wid, now: int) {
    if w in r.workers && r.workers[w].pc.Running? then
      var t := r.workers[w].pc.task;
      || (&& t.time <= now && (forall u :: u in s.sched ==> t.time <= u.time)
          && multiset(s.sched) == multiset(r.sched) + multiset{t} && r.pq == s.pq)
      || (&& (forall u :: u in s.sched ==> now < u.time)
          && multiset(s.pq.q) == multiset(r.pq.q) + multiset{t} && r.sched == s.sched)
    else
      s.pq.q == [] && (forall u :: u in s.sched ==> now < u.time) && r.pq == s.pq && r.sched == s.sched
  }

  lemma DispatchedTakesBest(s: State, w: Wid, now: int, later: int)
    requires Indexed(s.pq) && TimeSorted(s.sched) && w in s.workers
    ensures TakesBest(s, Dispatched(s, w, now, later), w, now)
  {
    hide Indexed, TimeSorted, Dispatched, Add, RemoveAt;
    DispatchedQueues(s, w, now, later);
    PopIsDue(s.pq, s.sched, now);
    PopTakesOne(s.pq, s.sched, now);
  }

  // What pop_task delivers leaves its queue, once.
  lemma PopTakesOne(pq: PQ, sched: seq<Task>, now: int)
    requires Indexed(pq)
    ensures match Pop(pq, sched, now)
            case Due(t) => multiset(sched) == multiset(PopSched(pq, sched, now)) + multiset{t} && PopQueue(pq, sched, now) == pq
            case Ready(t) => multiset(pq.q) == multiset(PopQueue(pq, sched, now).q) + multiset{t} && PopSched(pq, sched, now) == sched
            case Nothing => PopQueue(pq, sched, now) == pq && PopSched(pq, sched, now) == sched
  {
    hide Indexed, RemoveAt;
    if sched != [] {
      assert sched == [sched[0]] + sched[1..];
    }
    if pq.q != [] {
      FirstRemoved(pq);
    }
  }

  lemma FirstRemoved(pq: PQ)
    requires Indexed(pq) && pq.q != []
    ensures multiset(pq.q) == multiset(RemoveAt(pq, 0).q) + multiset{pq.q[0]}
  {
    assert RemoveAt(pq, 0).q == pq.q[..0] + pq.q[1..] == pq.q[1..];
    assert pq.q == [pq.q[0]] + pq.q[1..];
  }

  // The first k steps of a run are a run, and so is the step behind them.
  lemma {:induction false} RunPrefix(s: State, steps: seq<Step>, k: nat)
    requires LegalRun(s, steps) && k < |steps|
    ensures LegalRun(s, steps[..k])
    ensures Indexed(Exec(s, steps[..k]).pq) && Legal(Exec(s, steps[..k]), steps[k])
    ensures GuardedRun(s, steps) ==> GuardedRun(s, steps[..k])
    decreases k
  {
    hide Legal, GuardedStep, Next, Indexed;
    if k > 0 {
      assert steps[..k][0] == steps[0] && steps[..k][1..] == steps[1..][..k - 1] && steps[1..][k - 1] == steps[k];
      RunPrefix(Next(s, steps[0]), steps[1..], k - 1);
    }
  }

  predicate Looks(step: Step) {
    step.Take? || step.Finish?
  }

  // In every interleaving, whenever a worker looks for a task, it takes the best one.
  lemma RunTakesBest(s: State, steps: seq<Step>, k: nat)
    requires Core(s) && LegalRun(s, steps) && k < |steps| && Looks(steps[k])
    ensures LegalRun(s, steps[..k])
    ensures var r := Exec(s, steps[..k]);
            && Indexed(r.pq) && Legal(r, steps[k]) && TakesBest(r, Next(r, steps[k]), steps[k].w, steps[k].now)
  {
    hide Indexed, LegalRun, Exec, Dispatched, TakesBest, Counted, Placed;
    RunPrefix(s, steps, k);
    var r := Exec(s, steps[..k]);
    RunCore(s, steps[..k]);
    match steps[k]
    case Take(w, now, later) =>
      DispatchedTakesBest(Entered(r, w), w, now, later);
      EnteredTakesBest(r, w, Next(r, steps[k]), now);
    case Finish(w, now, later) => DispatchedTakesBest(r, w, now, later);
  }

  lemma EnteredTakesBest(s: State, w: Wid, r: State, now: int)
    requires w in s.workers && TakesBest(Entered(s, w), r, w, now)
    ensures TakesBest(s, r, w, now)
  {
  }

  // In every guarded interleaving a priority task that a worker starts is a greatest one.
  lemma RunTakesGreatest(s: State, steps: seq<Step>, k: nat)
    requires Core(s) && WellIndexed(s.pq) && LegalRun(s, steps) && GuardedRun(s, steps)
    requires k < |steps| && Looks(steps[k])
    ensures LegalRun(s, steps[..k])
    ensures var r := Exec(s, steps[..k]);
            && Indexed(r.pq) && Legal(r, steps[k])
            && var q, w := Next(r, steps[k]), steps[k].w;
               w in q.workers && q.workers[w].pc.Running? && q.sched == r.sched ==>
                 forall u :: u in r.pq.q ==> u.priority <= q.workers[w].pc.task.priority
  {
    hide Indexed, LegalRun, Exec, Dispatched, Counted, Placed, WellIndexed, GuardedRun;
    RunPrefix(s, steps, k);
    var r := Exec(s, steps[..k]);
    RunOrdered(s, steps[..k]);
    PopIsGreatest(r.pq, r.sched, steps[k].now);
    match steps[k]
    case Take(w, now, later) => DispatchedQueues(Entered(r, w), w, now, later);
    case Finish(w, now, later) => DispatchedQueues(r, w, now, later);
  }

  // ---------- cancellation ----------

  // Nothing of the owner's is waiting to run.
  ghost predicate NoneQueued(s: State, owner: int) {
    && (forall t :: t in s.pq.q ==> t.owner != owner)
    && (forall t :: t in s.sched ==> t.owner != owner)
  }

  ghost predicate NoneRunning(s: State, owner: int) {
    forall w :: !RunsFor(s, w, owner)
  }

  // Client c is cancelling for `owner`, or has returned and nothing of the owner's
  // is left anywhere.
  ghost predicate Cancelling(s: State, c: Cid, owner: int) {
    && c in s.cancels && s.cancels[c].owner == owner
    && NoneQueued(s, owner)
    && (s.cancels[c].Returned? ==> NoneRunning(s, owner))
  }

  // Steps that do not add for the owner and leave client c's call alone.
  predicate Unrelated(step: Step, c: Cid, owner: int) {
    match step
    case AddTask(t, push, spawn, ok, wake) => t.owner != owner
    case Schedule(t, spawn, ok, wake) => t.owner != owner
    case CancelBegin(d, o) => d != c
    case _ => true
  }

  lemma {:induction false} FirstBusyFinds(s: State, ring: seq<Wid>, owner: int)
    ensures FirstBusy(s, ring, owner) == [] ==> forall w :: w in ring ==> CurrentOwner(s, w) != owner
    ensures FirstBusy(s, ring, owner) != [] ==> FirstBusy(s, ring, owner)[0] in ring
  {
    if ring != [] {
      assert ring == [ring[0]] + ring[1..];
      FirstBusyFinds(s, ring[1..], owner);
    }
  }

  // A scan that finds no worker of the owner has looked at every running one.
  lemma ScannedReturns(s: State, owner: int)
    requires Placed(s)
    ensures Scanned(s, owner).owner == owner
    ensures Scanned(s, owner).Returned? ==> NoneRunning(s, owner)
  {
    FirstBusyFinds(s, s.busy, owner);
  }

  lemma BeginCancelling(s: State, c: Cid, owner: int)
    requires Core(s) && Legal(s, CancelBegin(c, owner))
    ensures Cancelling(Next(s, CancelBegin(c, owner)), c, owner)
  {
    hide Indexed;
    CancelledCore(s, owner);
    OthersMembers(s.pq.q, owner);
    OthersMembers(s.sched, owner);
  }

  lemma AddMembership(pq: PQ, t: Task, push: bool)
    requires Indexed(pq)
    ensures forall u :: u in Add(pq, t, push).q ==> u in pq.q || u == t
  {
  }

  lemma SchedAddMembership(sched: seq<Task>, t: Task)
    ensures forall u :: u in SchedAdd(sched, t) ==> u in sched || u == t
  {
  }

  // A worker dispatched while nothing of the owner's is queued does not run for it.
  lemma DispatchedCancelling(s: State, w: Wid, now: int, later: int, owner: int)
    requires Indexed(s.pq) && w in s.workers && NoneQueued(s, owner)
    ensures var r := Dispatched(s, w, now, later);
            && NoneQueued(r, owner) && r.cancels == s.cancels
            && (forall v :: RunsFor(r, v, owner) ==> v != w && RunsFor(s, v, owner))
  {
    hide Indexed;
    assert forall t :: t in PopQueue(s.pq, s.sched, now).q ==> t in s.pq.q;
  }

  // A step that queues nothing for the owner, starts nothing for the owner and
  // leaves client c alone.
  lemma QuietStep(s: State, r: State, c: Cid, owner: int)
    requires Cancelling(s, c, owner) && NoneQueued(r, owner)
    requires c in r.cancels && r.cancels[c] == s.cancels[c]
    requires forall v :: RunsFor(r, v, owner) ==> RunsFor(s, v, owner)
    ensures Cancelling(r, c, owner)
  {
  }

  lemma LookCancelling(s: State, c: Cid, owner: int)
    requires Placed(s) && Cancelling(s, c, owner)
    ensures Cancelling(AfterLook(s, c), c, owner)
  {
    ScannedReturns(s, owner);
    assert forall v :: RunsFor(AfterLook(s, c), v, owner) <==> RunsFor(s, v, owner);
  }

  lemma NextCancelling(s: State, step: Step, c: Cid, owner: int)
    requires Core(s) && Legal(s, step) && Cancelling(s, c, owner) && Unrelated(step, c, owner)
    ensures Cancelling(Next(s, step), c, owner)
  {
    hide Indexed, Counted, TimeSorted, Conserved, Dispatched, Cancelled, NoneRunning, RunsFor;
    if step == CancelLook(c) {
      LookCancelling(s, c, owner);
    } else {
      match step
      case AddTask(t, push, spawn, ok, wake) => AddCancelling(s, step, c, owner);
      case Schedule(t, spawn, ok, wake) => ScheduleCancelling(s, step, c, owner);
      case Take(w, now, later) =>
        EnteredRuns(s, w, owner);
        DispatchedCancelling(Entered(s, w), w, now, later, owner);
        QuietStep(s, Next(s, step), c, owner);
      case Finish(w, now, later) =>
        DispatchedCancelling(s, w, now, later, owner);
        QuietStep(s, Next(s, step), c, owner);
      case Wake(w) => WakeCancelling(s, w, c, owner);
      case CancelBegin(d, o) => BeginOther(s, d, o, c, owner);
      case CancelLook(d) => LookOther(s, d, c, owner);
    }
  }

  lemma AddCancelling(s: State, step: Step, c: Cid, owner: int)
    requires Indexed(s.pq) && Legal(s, step) && Cancelling(s, c, owner) && step.AddTask? && Unrelated(step, c, owner)
    ensures Cancelling(Next(s, step), c, owner)
  {
    hide Indexed, Add;
    AddMembership(s.pq, step.t, step.push);
    assert forall v :: RunsFor(Next(s, step), v, owner) ==> RunsFor(s, v, owner);
    QuietStep(s, Next(s, step), c, owner);
  }

  lemma ScheduleCancelling(s: State, step: Step, c: Cid, owner: int)
    requires Indexed(s.pq) && Legal(s, step) && Cancelling(s, c, owner) && step.Schedule? && Unrelated(step, c, owner)
    ensures Cancelling(Next(s, step), c, owner)
  {
    hide Indexed, SchedAdd;
    SchedAddMembership(s.sched, step.t);
    assert forall v :: RunsFor(Next(s, step), v, owner) ==> RunsFor(s, v, owner);
    QuietStep(s, Next(s, step), c, owner);
  }

  lemma EnteredRuns(s: State, w: Wid, owner: int)
    requires w in s.workers
    ensures forall v :: RunsFor(Entered(s, w), v, owner) <==> RunsFor(s, v, owner)
  {
  }

  lemma WakeCancelling(s: State, w: Wid, c: Cid, owner: int)
    requires w in s.workers && Cancelling(s, c, owner)
    ensures Cancelling(s.(workers := s.workers[w := s.workers[w].(pc := Woken)]), c, owner)
  {
    var r := s.(workers := s.workers[w := s.workers[w].(pc := Woken)]);
    assert forall v :: RunsFor(r, v, owner) ==> RunsFor(s, v, owner);
    QuietStep(s, r, c, owner);
  }

  // Another client begins to cancel.
  lemma BeginOther(s: State, d: Cid, o: int, c: Cid, owner: int)
    requires Core(s) && Legal(s, CancelBegin(d, o)) && Cancelling(s, c, owner) && d != c
    ensures Cancelling(Next(s, CancelBegin(d, o)), c, owner)
  {
    hide Indexed, CancelFrom, Others, TimeSorted, Counted, Placed, Conserved;
    CancelledCore(s, o);
    OthersMembers(s.pq.q, o);
    OthersMembers(s.sched, o);
    var r := Next(s, CancelBegin(d, o));
    assert forall v :: RunsFor(r, v, owner) ==> RunsFor(s, v, owner);
    QuietStep(s, r, c, owner);
  }

  // Another canceller looks.
  lemma LookOther(s: State, d: Cid, c: Cid, owner: int)
    requires d in s.cancels && d != c && Cancelling(s, c, owner)
    ensures Cancelling(AfterLook(s, d), c, owner)
  {
    var r := AfterLook(s, d);
    assert forall v :: RunsFor(r, v, owner) ==> RunsFor(s, v, owner);
    QuietStep(s, r, c, owner);
  }

  lemma {:induction false} ExecCancelling(s: State, steps: seq<Step>, c: Cid, owner: int)
    requires Core(s) && LegalRun(s, steps) && Cancelling(s, c, owner)
    requires forall i :: 0 <= i < |steps| ==> Unrelated(steps[i], c, owner)
    ensures Cancelling(Exec(s, steps), c, owner)
    decreases |steps|
  {
    hide Core, Cancelling, Unrelated, Legal;
    if steps != [] {
      NextCore(s, steps[0]);
      NextCancelling(s, steps[0], c, owner);
      ExecCancelling(Next(s, steps[0]), steps[1..], c, owner);
    }
  }

  // From the moment base_threadpool_cancel_tasks(owner) is entered, whatever other
  // workers and clients do, once it has returned nothing of the owner's is queued,
  // scheduled or running -- provided nobody adds for that owner meanwhile.
  lemma CancelReturnsClean(s: State, c: Cid, owner: int, steps: seq<Step>)
    requires Core(s) && Legal(s, CancelBegin(c, owner))
    requires LegalRun(Next(s, CancelBegin(c, owner)), steps)
    requires forall i :: 0 <= i < |steps| ==> Unrelated(steps[i], c, owner)
    ensures var r := Exec(Next(s, CancelBegin(c, owner)), steps);
            && NoneQueued(r, owner)
            && c in r.cancels && (r.cancels[c].Returned? ==> NoneRunning(r, owner))
  {
    var b := CancelBegin(c, owner);
    NextCore(s, b);
    BeginCancelling(s, c, owner);
    ExecCancelling(Next(s, b), steps, c, owner);
  }

  // ---------- scheduled work ----------

  // A scheduled task is looked after while some worker is active or in a timed wait.
  predicate Watches(s: State, w: Wid) {
    w in s.workers && (s.workers[w].pc.Waiting? ==> s.workers[w].pc.timed)
  }

  ghost predicate Watched(s: State) {
    s.schedCnt > 0 ==> exists w :: Watches(s, w)
  }

  // A worker finding nothing to take leaves the scheduled tasks watched.
  ghost predicate StaysWatched(s: State, w: Wid, now: int, later: int)
    requires w in s.workers
  {
    s.sched != [] && Pop(s.pq, s.sched, now).Nothing? ==>
      || (!Leaves(s, w) && later <= s.sched[0].time)
      || exists v :: v != w && Watches(s, v)
  }

  // When a step leaves the scheduled tasks watched: scheduling needs a thread, or that
  // one can be created; a worker that finds nothing to take must stay, and the first
  // deadline must not pass between its two readings of the clock, unless another
  // worker watches.
  ghost predicate KeepsWatch(s: State, step: Step)
    requires Legal(s, step)
  {
    match step
    case Schedule(t, spawn, ok, wake) => s.thdCnt > 0 || ok
    case Take(w, now, later) => StaysWatched(Entered(s, w), w, now, later)
    case Finish(w, now, later) => StaysWatched(s, w, now, later)
    case _ => true
  }

  lemma DispatchedWatchedIff(s: State, w: Wid, now: int, later: int)
    requires Indexed(s.pq) && Counted(s) && w in s.workers
    ensures Watched(Dispatched(s, w, now, later)) <==> StaysWatched(s, w, now, later)
  {
    hide Indexed;
    var r := Dispatched(s, w, now, later);
    if Pop(s.pq, s.sched, now) != Nothing {
      assert Watches(r, w);
    } else if s.sched != [] {
      assert forall v :: v != w ==> (Watches(r, v) <==> Watches(s, v));
      assert Watches(r, w) <==> !Leaves(s, w) && later <= s.sched[0].time;
      if Watched(r) {
        var v :| Watches(r, v);
      }
      if exists v :: v != w && Watches(s, v) {
        var v :| v != w && Watches(s, v);
        assert Watches(r, v);
      }
    }
  }

  // After a task has been scheduled, some worker watches exactly when the pool had a
  // thread or could create one.
  lemma ScheduleWatchedIff(s: State, step: Step)
    requires Core(s) && Legal(s, step) && step.Schedule?
    ensures Watched(Next(s, step)) <==> s.thdCnt > 0 || step.spawnOk
  {
    hide Indexed, Placed, TimeSorted;
    var r, wake := Next(s, step), step.wake;
    if s.thdCnt > 0 {
      assert |s.workers.Keys| > 0;
      var w := Pick(s.workers.Keys);
      if Active(s, w) {
        assert Watches(r, w);
      } else {
        var v := SignalWakes(s, wake, w);
        assert Watches(r, v);
      }
    } else if step.spawnOk {
      assert Watches(r, step.spawn);
    } else {
      assert s.workers == map[];
      assert r.workers == map[];
    }
  }

  lemma SignalKeepsWatch(s: State, spawn: Wid, need: bool, ok: bool, wake: set<Wid>)
    requires Watched(s) && spawn !in s.workers
    ensures Watched(Signalled(Spawned(s, need, spawn, ok), wake))
  {
    if s.schedCnt > 0 {
      var w :| Watches(s, w);
      assert Watches(Signalled(Spawned(s, need, spawn, ok), wake), w);
    }
  }

  lemma SameWorkersWatched(s: State, r: State)
    requires Watched(s) && r.workers == s.workers && r.schedCnt <= s.schedCnt
    ensures Watched(r)
  {
    if r.schedCnt > 0 {
      var w :| Watches(s, w);
      assert Watches(r, w);
    }
  }

  // Every step that is not excluded keeps the scheduled tasks watched, and the others
  // do not.
  lemma NextWatchedIff(s: State, step: Step)
    requires Core(s) && Watched(s) && Legal(s, step)
    ensures Watched(Next(s, step)) <==> KeepsWatch(s, step)
  {
    hide Indexed, Counted, TimeSorted, Watched, StaysWatched;
    match step
    case AddTask(t, push, spawn, ok, wake) =>
      if !Full(s) {
        var r := Added(s, t, push);
        SameWorkersWatched(s, r);
        SignalKeepsWatch(r, spawn, NeedsThread(r), ok, wake);
      }
    case Schedule(t, spawn, ok, wake) => ScheduleWatchedIff(s, step);
    case Take(w, now, later) =>
      EnteredOnBusy(s, w);
      DispatchedWatchedIff(Entered(s, w), w, now, later);
    case Finish(w, now, later) => DispatchedWatchedIff(s, w, now, later);
    case Wake(w) => WakeWatched(s, w);
    case CancelBegin(c, owner) => CancelledWatched(s, owner, Next(s, step));
    case CancelLook(c) => SameWorkersWatched(s, Next(s, step));
  }

  lemma WakeWatched(s: State, w: Wid)
    requires Watched(s) && w in s.workers
    ensures Watched(s.(workers := s.workers[w := s.workers[w].(pc := Woken)]))
  {
    assert Watches(s.(workers := s.workers[w := s.workers[w].(pc := Woken)]), w);
  }

  lemma CancelledWatched(s: State, owner: int, r: State)
    requires Core(s) && Watched(s) && r == Cancelled(s, owner).(cancels := r.cancels)
    ensures Watched(r)
  {
    hide Indexed, Watched;
    CancelledCore(s, owner);
    OthersShorter(s.sched, owner);
    SameWorkersWatched(s, r);
  }

  // In every state of the run some worker watches the scheduled tasks.
  ghost predicate WatchedRun(s: State, steps: seq<Step>)
    requires LegalRun(s, steps)
    decreases |steps|
  {
    Watched(s) && (steps != [] ==> WatchedRun(Next(s, steps[0]), steps[1..]))
  }

  ghost predicate KeepingRun(s: State, steps: seq<Step>)
    requires LegalRun(s, steps)
    decreases |steps|
  {
    steps != [] ==> KeepsWatch(s, steps[0]) && KeepingRun(Next(s, steps[0]), steps[1..])
  }

  // Over every run, no scheduled task is ever forgotten by all workers if and only if
  // every step keeps the watch.
  lemma {:induction false} RunWatchedIff(s: State, steps: seq<Step>)
    requires Core(s) && Watched(s) && LegalRun(s, steps)
    ensures WatchedRun(s, steps) <==> KeepingRun(s, steps)
    decreases |steps|
  {
    hide Core, Watched, KeepsWatch, Legal;
    if steps != [] {
      NextCore(s, steps[0]);
      NextWatchedIff(s, steps[0]);
      assert WatchedRun(Next(s, steps[0]), steps[1..]) ==> Watched(Next(s, steps[0]));
      if KeepsWatch(s, steps[0]) {
        RunWatchedIff(Next(s, steps[0]), steps[1..]);
      }
    }
  }

  // Two runs of a new pool that forget a scheduled task: its only worker finds nothing
  // due at 5 and sets out to wait at 20, after the deadline; or there is no thread and
  // creating one fails.
  lemma WatchCanBeLost(cfg: Config, t: Task)
    requires t.time == 10 && cfg.idleMax > 0
    ensures var steps := [Schedule(t, 1, false, {}), Take(0, 5, 20)];
            LegalRun(Initial(cfg, {0}), steps) && !Watched(Exec(Initial(cfg, {0}), steps))
    ensures var steps := [Schedule(t, 0, false, {})];
            LegalRun(Initial(cfg, {}), steps) && !Watched(Exec(Initial(cfg, {}), steps))
  {
    LostWhileLooking(cfg, t);
    LostWithoutThreads(cfg, t);
  }

  lemma LostWhileLooking(cfg: Config, t: Task)
    requires t.time == 10 && cfg.idleMax > 0
    ensures var steps := [Schedule(t, 1, false, {}), Take(0, 5, 20)];
            LegalRun(Initial(cfg, {0}), steps) && !Watched(Exec(Initial(cfg, {0}), steps))
  {
    var steps := [Schedule(t, 1, false, {}), Take(0, 5, 20)];
    var s := Initial(cfg, {0});
    InitialInv(cfg, {0});
    assert s.workers.Keys == {0} && Legal(s, steps[0]);
    NextCore(s, steps[0]);
    var r := Next(s, steps[0]);
    assert r.workers.Keys == {0} && r.workers[0] == Worker(Starting, false) && r.sched == [t];
    EnteredOnBusy(r, 0);
    DispatchedWatchedIff(Entered(r, 0), 0, 5, 20);
    assert forall v :: v != 0 ==> !Watches(Entered(r, 0), v);
    assert !Watched(Next(r, steps[1]));
    assert steps[1..] == [steps[1]] && steps[1..][1..] == [];
    assert Exec(s, steps) == Exec(r, steps[1..]) == Exec(Next(r, steps[1]), []);
  }

  lemma LostWithoutThreads(cfg: Config, t: Task)
    ensures var steps := [Schedule(t, 0, false, {})];
            LegalRun(Initial(cfg, {}), steps) && !Watched(Exec(Initial(cfg, {}), steps))
  {
    var s, step := Initial(cfg, {}), Schedule(t, 0, false, {});
    InitialInv(cfg, {});
    assert s.workers == map[];
    ScheduleWatchedIff(s, step);
    assert [step][1..] == [];
  }
}
