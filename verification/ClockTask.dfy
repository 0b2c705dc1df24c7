/** The timer list of `clock_task.c` on `linuxlist.h`: a ring of timers that is walked
    once a second, timers being unlinked while it is walked. */
module ClockTask {
  import opened BaseRing

  // struct time_task.
  datatype Timer = Timer(id: string, opcode: int, time: int, ncount: int, currentTime: int)

  // ---------- one tick ----------

  predicate Fires(t: Timer) {
    t.time == t.currentTime + 1
  }

  // The timer after a tick: a count above -1 goes down when it fires.
  function Aged(t: Timer): Timer {
    if Fires(t) then t.(ncount := if t.ncount > -1 then t.ncount - 1 else t.ncount, currentTime := 0)
    else t.(currentTime := t.currentTime + 1)
  }

  // What a tick leaves of a timer in the list: nothing when its count has become 0.
  function Kept(t: Timer): seq<Timer> {
    if Aged(t).ncount == 0 then [] else [Aged(t)]
  }

  // The timer as it is handed to the server, when it fires.
  function Handed(t: Timer): seq<Timer> {
    if Fires(t) then [Aged(t).(currentTime := t.time)] else []
  }

  // What a tick leaves of the list.
  function Tick(q: seq<Timer>): seq<Timer> {
    if q == [] then [] else Kept(q[0]) + Tick(q[1..])
  }

  // The timers handed to the server in a tick, in order.
  function Fired(q: seq<Timer>): seq<Timer> {
    if q == [] then [] else Handed(q[0]) + Fired(q[1..])
  }

  predicate HasKey(t: Timer, id: string, opcode: int) {
    t.opcode == opcode && t.id == id
  }

  // del_time_task.
  function Without(q: seq<Timer>, id: string, opcode: int): seq<Timer> {
    if q == [] then []
    else (if HasKey(q[0], id, opcode) then [] else [q[0]]) + Without(q[1..], id, opcode)
  }

  // ---------- runs ----------

  datatype Event = Ticks | Adds(t: Timer) | Deletes(id: string, opcode: int)

  function Step(q: seq<Timer>, e: Event): seq<Timer> {
    match e
    case Ticks => Tick(q)
    case Adds(t) => q + [t.(currentTime := 0)]
    case Deletes(id, opcode) => Without(q, id, opcode)
  }

  function Run(q: seq<Timer>, es: seq<Event>): seq<Timer>
    decreases |es|
  {
    if es == [] then q else Run(Step(q, es[0]), es[1..])
  }

  function TickCount(es: seq<Event>): nat {
    if es == [] then 0 else (if es[0].Ticks? then 1 else 0) + TickCount(es[1..])
  }

  // The timers handed to the server at each tick of the run.
  function Firings(q: seq<Timer>, es: seq<Event>): (r: seq<seq<Timer>>)
    ensures |r| == TickCount(es)
    decreases |es|
  {
    if es == [] then []
    else (if es[0].Ticks? then [Fired(q)] else []) + Firings(Step(q, es[0]), es[1..])
  }

  function Flat(fs: seq<seq<Timer>>): seq<Timer> {
    if fs == [] then [] else fs[0] + Flat(fs[1..])
  }

  // The run without the timers it adds.
  function NoAdds(es: seq<Event>): (r: seq<Event>)
    ensures TickCount(r) == TickCount(es)
  {
    if es == [] then [] else if es[0].Adds? then NoAdds(es[1..]) else [es[0]] + NoAdds(es[1..])
  }

  // ---------- what is expected of a timer with period p and count n ----------

  // Still listed after k ticks.
  predicate Active(p: nat, n: int, k: nat) {
    n < 0 || k < n * p
  }

  // The timer x, freshly added, after k ticks.
  function After(x: Timer, k: nat): Timer
    requires x.time > 0
  {
    x.(currentTime := k % x.time, ncount := if x.ncount < 0 then x.ncount else x.ncount - k / x.time)
  }

  function Expected(x: Timer, k: nat): seq<Timer>
    requires x.time > 0
  {
    if Active(x.time, x.ncount, k) then [After(x, k)] else []
  }

  // The timer fires at its tick m: a multiple of its period, up to the last one.
  predicate IsDue(x: Timer, m: nat)
    requires x.time > 0
  {
    m % x.time == 0 && (x.ncount < 0 || m <= x.ncount * x.time)
  }

  // What the server gets then.
  function Firing(x: Timer, m: nat): seq<Timer>
    requires x.time > 0
  {
    if IsDue(x, m) then
      [x.(currentTime := x.time, ncount := if x.ncount < 0 then x.ncount else x.ncount - m / x.time)]
    else []
  }

  lemma DivStep(k: nat, p: nat)
    requires p > 0
    ensures k % p == p - 1 ==> (k + 1) % p == 0 && (k + 1) / p == k / p + 1
    ensures k % p < p - 1 ==> (k + 1) % p == k % p + 1 && (k + 1) / p == k / p
  {
    var q, r := k / p, k % p;
    assert k == q * p + r;
    NextMultiple(q, p);
    if r == p - 1 {
      DivUnique(k + 1, p, q + 1, 0);
    } else {
      DivUnique(k + 1, p, q, r + 1);
    }
  }

  lemma NextMultiple(q: nat, p: nat)
    ensures (q + 1) * p == q * p + p
  {
  }

  lemma MulMono(a: nat, b: nat, p: nat)
    requires a <= b
    ensures a * p <= b * p
  {
    assert b * p == a * p + (b - a) * p;
  }

  lemma DivUnique(k: nat, p: nat, q: nat, r: nat)
    requires p > 0 && k == q * p + r && r < p
    ensures k / p == q && k % p == r
  {
    var a, b := k / p, k % p;
    assert k == a * p + b;
    assert (q + 1) * p == q * p + p && (a + 1) * p == a * p + p;
    if a > q {
      MulMono(q + 1, a, p);
    } else if a < q {
      MulMono(a + 1, q, p);
    }
  }

  // One tick of the timer: it fires at the multiples of its period and leaves the
  // list with its last count.
  lemma AfterTick(x: Timer, k: nat)
    requires x.time > 0 && x.ncount != 0 && x.currentTime == 0 && Active(x.time, x.ncount, k)
    ensures Kept(After(x, k)) == Expected(x, k + 1)
    ensures Handed(After(x, k)) == Firing(x, k + 1)
  {
    var p, n := x.time, x.ncount;
    DivStep(k, p);
    if n > 0 {
      var q := k / p;
      assert k == q * p + k % p;
      LastCount(n, p, k, q);
    }
  }

  lemma LastCount(n: nat, p: nat, k: nat, q: nat)
    requires p > 0 && k == q * p + k % p && k < n * p
    ensures q < n
    ensures k + 1 <= n * p
    ensures k % p == p - 1 ==> (q + 1 == n <==> k + 1 >= n * p)
    ensures k % p < p - 1 ==> k + 1 < n * p
  {
    assert (q + 1) * p == q * p + p && (q + 2) * p == q * p + p + p;
    if q >= n {
      MulMono(n, q, p);
    } else if q + 1 < n {
      MulMono(q + 2, n, p);
    }
  }

  // ---------- the run of one timer ----------

  lemma Assoc<T>(a: seq<T>, b: seq<T>, c: seq<T>)
    ensures a + (b + c) == (a + b) + c
  {
  }

  // A tick treats the front and the back of the list separately.
  lemma {:induction false} TickSplits(a: seq<Timer>, b: seq<Timer>)
    ensures Tick(a + b) == Tick(a) + Tick(b) && Fired(a + b) == Fired(a) + Fired(b)
  {
    hide Kept, Handed;
    if a == [] {
      assert a + b == b && Tick(a) + Tick(b) == Tick(b) && Fired(a) + Fired(b) == Fired(b);
    } else {
      TickSplits(a[1..], b);
      assert (a + b)[1..] == a[1..] + b;
      Assoc(Kept(a[0]), Tick(a[1..]), Tick(b));
      Assoc(Handed(a[0]), Fired(a[1..]), Fired(b));
    }
  }

  lemma {:induction false} WithoutSplits(a: seq<Timer>, b: seq<Timer>, id: string, opcode: int)
    ensures Without(a + b, id, opcode) == Without(a, id, opcode) + Without(b, id, opcode)
  {
    hide HasKey;
    if a == [] {
      assert a + b == b && Without(a, id, opcode) + Without(b, id, opcode) == Without(b, id, opcode);
    } else {
      WithoutSplits(a[1..], b, id, opcode);
      assert (a + b)[1..] == a[1..] + b;
      Assoc(if HasKey(a[0], id, opcode) then [] else [a[0]], Without(a[1..], id, opcode), Without(b, id, opcode));
    }
  }

  // What a deletion leaves: a timer alone goes exactly when it has that id and opcode, and
  // by WithoutSplits so does every timer of a list, the others keeping order and number.
  lemma {:induction false} WithoutMembers(q: seq<Timer>, id: string, opcode: int)
    ensures forall t :: t in Without(q, id, opcode) <==> t in q && !(t.id == id && t.opcode == opcode)
    ensures forall t :: Without([t], id, opcode) == if t.id == id && t.opcode == opcode then [] else [t]
  {
    forall t: Timer
      ensures Without([t], id, opcode) == if t.id == id && t.opcode == opcode then [] else [t]
    {
      assert [t][1..] == [];
    }
    if q != [] {
      WithoutMembers(q[1..], id, opcode);
      assert q == [q[0]] + q[1..];
    }
  }

  lemma StepSplits(a: seq<Timer>, b: seq<Timer>, e: Event)
    ensures Step(a + b, e) == (if e.Adds? then a else Step(a, e)) + Step(b, e)
  {
    match e
    case Ticks => TickSplits(a, b);
    case Adds(t) => Assoc(a, b, [t.(currentTime := 0)]);
    case Deletes(id, opcode) => WithoutSplits(a, b, id, opcode);
  }

  // So does a whole run: the timers in the front never see those behind them, nor any
  // timer that is added, whatever its id and opcode.
  lemma {:induction false} RunSplits(a: seq<Timer>, b: seq<Timer>, es: seq<Event>)
    ensures Run(a + b, es) == Run(a, NoAdds(es)) + Run(b, es)
    ensures forall j :: 0 <= j < TickCount(es) ==> Firings(a + b, es)[j] == Firings(a, NoAdds(es))[j] + Firings(b, es)[j]
    decreases |es|
  {
    hide Step, Fired;
    if es != [] {
      var e := es[0];
      StepSplits(a, b, e);
      NoAddsStep(a, es);
      RunSplits(if e.Adds? then a else Step(a, e), Step(b, e), es[1..]);
      if e.Ticks? {
        TickSplits(a, b);
      }
    }
  }

  lemma NoAddsStep(a: seq<Timer>, es: seq<Event>)
    requires es != []
    ensures var r := if es[0].Adds? then a else Step(a, es[0]);
            && Run(a, NoAdds(es)) == Run(r, NoAdds(es[1..]))
            && Firings(a, NoAdds(es)) == (if es[0].Ticks? then [Fired(a)] else []) + Firings(r, NoAdds(es[1..]))
  {
    hide Step, Fired;
    if es[0].Adds? {
      assert [] + Firings(a, NoAdds(es[1..])) == Firings(a, NoAdds(es[1..]));
    } else {
      assert ([es[0]] + NoAdds(es[1..]))[1..] == NoAdds(es[1..]);
    }
  }

  lemma NoEvents(q: seq<Timer>)
    ensures Run(q, NoAdds([])) == q
  {
  }

  // The event deletes no timer of this key.
  predicate Spares(e: Event, id: string, opcode: int) {
    e.Deletes? ==> !(e.opcode == opcode && e.id == id)
  }

  lemma ExpectedTick(x: Timer, k: nat)
    requires x.time > 0 && x.ncount != 0 && x.currentTime == 0
    ensures Tick(Expected(x, k)) == Expected(x, k + 1) && Fired(Expected(x, k)) == Firing(x, k + 1)
  {
    hide Kept, Handed, Firing, After;
    if Active(x.time, x.ncount, k) {
      AfterTick(x, k);
      var t := After(x, k);
      assert [t][1..] == [] && Kept(t) + [] == Kept(t) && Handed(t) + [] == Handed(t);
    } else {
      NoFiring(x, k + 1);
    }
  }

  lemma NoFiring(x: Timer, m: nat)
    requires x.time > 0 && x.ncount >= 0 && m > x.ncount * x.time
    ensures Firing(x, m) == []
  {
  }

  lemma ExpectedSpared(x: Timer, k: nat, id: string, opcode: int)
    requires x.time > 0 && Spares(Deletes(id, opcode), x.id, x.opcode)
    ensures Without(Expected(x, k), id, opcode) == Expected(x, k)
  {
    if Active(x.time, x.ncount, k) {
      var t := After(x, k);
      assert [t][1..] == [] && [t] + [] == [t];
    }
  }

  // The timer with nothing behind it.
  lemma {:induction false} AloneRun(x: Timer, es: seq<Event>, k: nat)
    requires x.time > 0 && x.ncount != 0 && x.currentTime == 0
    requires forall e :: e in es ==> Spares(e, x.id, x.opcode)
    ensures Run(Expected(x, k), NoAdds(es)) == Expected(x, k + TickCount(es))
    ensures forall j :: 0 <= j < TickCount(es) ==> Firings(Expected(x, k), NoAdds(es))[j] == Firing(x, k + j + 1)
    decreases |es|
  {
    hide Expected, Firing, Spares, Run, Firings, NoAdds, Tick, Without, Fired;
    if es == [] {
      NoEvents(Expected(x, k));
    } else {
      var e := es[0];
      NoAddsStep(Expected(x, k), es);
      match e
      case Ticks =>
        ExpectedTick(x, k);
        AloneRun(x, es[1..], k + 1);
      case Adds(t) => AloneRun(x, es[1..], k);
      case Deletes(id, opcode) =>
        ExpectedSpared(x, k, id, opcode);
        AloneRun(x, es[1..], k);
    }
  }

  // However ticks are interleaved with adds, of whatever timers, and deletes of other
  // timers: a timer with period p that has seen k ticks, anywhere in the list, fires
  // exactly at the multiples of p, n times (for ever when n is negative), and is listed
  // exactly until it has fired for the n-th time; the timers in front of it and behind
  // it go their own way.
  lemma TimerRun(a: seq<Timer>, x: Timer, b: seq<Timer>, es: seq<Event>, k: nat)
    requires x.time > 0 && x.ncount != 0 && x.currentTime == 0
    requires forall e :: e in es ==> Spares(e, x.id, x.opcode)
    ensures Run(a + (Expected(x, k) + b), es) == Run(a, NoAdds(es)) + (Expected(x, k + TickCount(es)) + Run(b, es))
    ensures forall j :: 0 <= j < TickCount(es) ==>
              Firings(a + (Expected(x, k) + b), es)[j]
              == Firings(a, NoAdds(es))[j] + (Firing(x, k + j + 1) + Firings(b, es)[j])
  {
    hide *;
    RunSplits(a, Expected(x, k) + b, es);
    RunSplits(Expected(x, k), b, es);
    AloneRun(x, es, k);
  }

  // One of the multiples p, 2p, ... of the period, the first n of them for a count n.
  ghost predicate IsTurn(x: Timer, m: nat) {
    exists c: nat :: m == c * x.time && (x.ncount < 0 || c <= x.ncount)
  }

  lemma MulCompare(a: nat, b: nat, p: nat)
    requires p > 0
    ensures a * p <= b * p <==> a <= b
  {
    if a <= b {
      MulMono(a, b, p);
    } else {
      MulMono(b + 1, a, p);
      assert (b + 1) * p == b * p + p;
    }
  }

  // The ticks at which a timer fires are these multiples.
  lemma DueIff(x: Timer, m: nat)
    requires x.time > 0
    ensures Firing(x, m)
         == if IsTurn(x, m) then [x.(currentTime := x.time, ncount := if x.ncount < 0 then x.ncount else x.ncount - m / x.time)]
            else []
  {
    var p, n := x.time, x.ncount;
    if IsDue(x, m) {
      var c := m / p;
      assert m == c * p;
      if n >= 0 {
        MulCompare(c, n, p);
      }
    }
    if c: nat :| m == c * p && (n < 0 || c <= n) {
      DivUnique(m, p, c, 0);
      if n >= 0 {
        MulCompare(c, n, p);
      }
    }
  }

  // Written out for a timer with count n > 0 that has just been added and runs its full
  // time: it fires at p, 2p, ..., np, at no other tick, and is gone.
  lemma FiresExactlyAt(a: seq<Timer>, x: Timer, b: seq<Timer>, es: seq<Event>)
    requires x.time > 0 && x.ncount > 0 && x.currentTime == 0
    requires forall e :: e in es ==> Spares(e, x.id, x.opcode)
    requires TickCount(es) >= x.ncount * x.time
    ensures Run(a + ([x] + b), es) == Run(a, NoAdds(es)) + Run(b, es)
    ensures forall j :: 0 <= j < TickCount(es) ==>
              var mine := if IsTurn(x, j + 1) then [x.(currentTime := x.time, ncount := x.ncount - (j + 1) / x.time)] else [];
              Firings(a + ([x] + b), es)[j] == Firings(a, NoAdds(es))[j] + (mine + Firings(b, es)[j])
  {
    hide Run, Firings, NoAdds, Spares;
    MulMono(1, x.ncount, x.time);
    DivUnique(0, x.time, 0, 0);
    assert Expected(x, 0) == [x] && Expected(x, TickCount(es)) == [];
    TimerRun(a, x, b, es, 0);
    assert [] + Run(b, es) == Run(b, es);
    forall m: nat
      ensures Firing(x, m) == if IsTurn(x, m) then [x.(currentTime := x.time, ncount := x.ncount - m / x.time)] else []
    {
      DueIff(x, m);
    }
  }

  // From the moment it is added behind the timers already listed.
  lemma AddedFiresExactlyAt(q: seq<Timer>, x: Timer, es: seq<Event>)
    requires x.time > 0 && x.ncount > 0
    requires forall e :: e in es ==> Spares(e, x.id, x.opcode)
    requires TickCount(es) >= x.ncount * x.time
    ensures var all := [Adds(x)] + es;
            && Run(q, all) == Run(q, NoAdds(es)) + Run([], es) && |Firings(q, all)| == TickCount(es)
            && forall j :: 0 <= j < TickCount(es) ==>
                 var mine := if IsTurn(x, j + 1) then [x.(currentTime := x.time, ncount := x.ncount - (j + 1) / x.time)] else [];
                 Firings(q, all)[j] == Firings(q, NoAdds(es))[j] + (mine + Firings([], es)[j])
  {
    hide *;
    var y := x.(currentTime := 0);
    FiresExactlyAt(q, y, [], es);
    assert [y] + [] == [y];
    AddsFirst(q, x, es);
    forall m: nat
      ensures IsTurn(y, m) <==> IsTurn(x, m)
    {
      AddedTurns(x, m);
    }
  }

  lemma AddedTurns(x: Timer, m: nat)
    ensures IsTurn(x.(currentTime := 0), m) <==> IsTurn(x, m)
  {
    if c: nat :| m == c * x.time && (x.ncount < 0 || c <= x.ncount) {
      assert m == c * x.(currentTime := 0).time;
    }
  }

  lemma AddsFirst(q: seq<Timer>, x: Timer, es: seq<Event>)
    ensures Run(q, [Adds(x)] + es) == Run(q + [x.(currentTime := 0)], es)
    ensures Firings(q, [Adds(x)] + es) == Firings(q + [x.(currentTime := 0)], es)
  {
    var all := [Adds(x)] + es;
    assert all[1..] == es;
    var r := Firings(q + [x.(currentTime := 0)], es);
    assert [] + r == r;
  }

  // A timer whose clock is not below its period never fires, and stays unless its count
  // is 0.
  lemma {:induction false} NeverFires(x: Timer, es: seq<Event>)
    requires x.time <= x.currentTime && x.ncount != 0
    requires forall e :: e in es ==> Spares(e, x.id, x.opcode)
    ensures Run([x], NoAdds(es)) == [x.(currentTime := x.currentTime + TickCount(es))]
    ensures forall j :: 0 <= j < TickCount(es) ==> Firings([x], NoAdds(es))[j] == []
    decreases |es|
  {
    hide Run, Firings, NoAdds, Tick, Fired, Spares;
    if es == [] {
      NoEvents([x]);
    } else {
      var e, y := es[0], x.(currentTime := x.currentTime + 1);
      NoAddsStep([x], es);
      OneTick(x);
      match e
      case Ticks => NeverFires(y, es[1..]);
      case Adds(t) => NeverFires(x, es[1..]);
      case Deletes(id, opcode) =>
        WithoutMembers([], id, opcode);
        assert Spares(e, x.id, x.opcode);
        SparedAlone(e, x);
        NeverFires(x, es[1..]);
    }
  }

  lemma OneTick(x: Timer)
    ensures x.time <= x.currentTime && x.ncount != 0 ==>
              Tick([x]) == [x.(currentTime := x.currentTime + 1)] && Fired([x]) == []
  {
    assert [x][1..] == [];
  }

  lemma SparedAlone(e: Event, x: Timer)
    requires e.Deletes? && Spares(e, x.id, x.opcode)
    ensures Step([x], e) == [x]
  {
    WithoutMembers([], e.id, e.opcode);
  }

  // A timer added with count 0 does not fire and is gone after the first tick, unless
  // its period is 1: then the count passes 0 and it fires for ever.
  lemma ZeroCount(x: Timer)
    requires x.ncount == 0 && x.currentTime == 0
    ensures Tick([x]) == if x.time == 1 then [x.(ncount := -1)] else []
    ensures Fired([x]) == [] <==> x.time != 1
  {
    assert [x][1..] == [];
  }

  // ---------- the list on the heap ----------

  type TimerNode = Node<Timer>

  class Clock {
    const head: TimerNode            // time_task
    var handed: seq<Timer>           // the calls of srvt->time_addtask
    ghost var ns: seq<TimerNode>
    ghost var q: seq<Timer>          // the abstract value

    ghost predicate Valid()
      reads this, head, ns
    {
      IsRing(head, ns) && Holds(ns, q)
    }

    // INIT_LIST_HEAD.
    constructor ()
      ensures Valid() && q == [] && handed == [] && ns == [] && fresh(head)
    {
      var s := new Node(Timer("", 0, 0, 0, 0));
      head, handed, ns, q := s, [], [], [];
    }

    // add_time_task.
    method Add(id: string, opcode: int, time: int, ncount: int)
      requires Valid()
      modifies this, head`next, head`prev, Members(ns)`next, Members(ns)`prev
      ensures Valid() && handed == old(handed)
      ensures q == old(q) + [Timer(id, opcode, time, ncount, 0)]
      ensures forall n :: n in ns ==> n in old(ns) || fresh(n)
    {
      hide IsRing;
      RingDistinct(head, ns);
      var task := new Node(Timer(id, opcode, time, ncount, 0));
      InsertBefore(head, task, head, ns, |ns|);
      assert ns[..|ns|] + [task] + ns[|ns|..] == ns + [task];
      ns, q := ns + [task], q + [task.val];
    }

    // list_del and free.
    method Unlink(task: TimerNode, ghost i: nat)
      requires Valid() && i < |ns| && task == ns[i]
      modifies this`ns, this`q, head`next, head`prev, Members(ns)`next, Members(ns)`prev
      ensures Valid() && ns == old(ns[..i] + ns[i + 1..]) && q == old(q[..i] + q[i + 1..])
    {
      hide IsRing;
      Remove(task, head, ns, i);
      ns, q := ns[..i] + ns[i + 1..], q[..i] + q[i + 1..];
    }

    // The counting of on_time_msg.
    method Age(task: TimerNode, ghost i: nat)
      requires Valid() && i < |ns| && task == ns[i]
      modifies this`handed, this`q, task`val
      ensures Valid() && q == old(q[i := Aged(q[i])]) && handed == old(handed + Handed(q[i]))
      ensures task.val == q[i]
    {
      RingDistinct(head, ns);
      task.val := task.val.(currentTime := task.val.currentTime + 1);
      if task.val.time == task.val.currentTime {
        if task.val.ncount > -1 {
          task.val := task.val.(ncount := task.val.ncount - 1);
        }
        handed := handed + [task.val];
        task.val := task.val.(currentTime := 0);
      }
      q := q[i := task.val];
    }

    method OnTimeMsg()
      requires Valid()
      modifies this, head`next, head`prev, Members(ns)`next, Members(ns)`prev, Members(ns)`val
      ensures Valid() && q == Tick(old(q)) && handed == old(handed) + Fired(old(q))
      ensures forall n :: n in ns ==> n in old(ns)
    {
      hide IsRing, Tick, Fired, Aged, Handed;
      RingLinks(head, ns, -1);
      RingDistinct(head, ns);
      var tmp := head.next;
      ghost var i := 0;
      Whole(q);
      while tmp != head
        invariant Valid() && 0 <= i <= |ns| && tmp == At(head, ns, i)
        invariant q[..i] + Tick(q[i..]) == Tick(old(q))
        invariant handed + Fired(q[i..]) == old(handed) + Fired(old(q))
        invariant forall n :: n in ns ==> n in old(ns)
        decreases |ns| - i
      {
        RingLinks(head, ns, i);
        RingDistinct(head, ns);
        var n := tmp.next;
        TickStep(q, i, handed);
        Age(tmp, i);
        if tmp.val.ncount == 0 {
          Unlink(tmp, i);
        } else {
          i := i + 1;
        }
        tmp := n;
      }
      RingDistinct(head, ns);
      Whole(q);
    }

    method Delete(id: string, opcode: int)
      requires Valid()
      modifies this, head`next, head`prev, Members(ns)`next, Members(ns)`prev
      ensures Valid() && q == Without(old(q), id, opcode) && handed == old(handed)
      ensures forall t :: t in q <==> t in old(q) && !(t.id == id && t.opcode == opcode)
      ensures forall n :: n in ns ==> n in old(ns)
    {
      hide IsRing, Without;
      RingLinks(head, ns, -1);
      RingDistinct(head, ns);
      var tmp := head.next;
      ghost var i := 0;
      Whole(q);
      while tmp != head
        invariant Valid() && 0 <= i <= |ns| && tmp == At(head, ns, i)
        invariant q[..i] + Without(q[i..], id, opcode) == Without(old(q), id, opcode)
        invariant handed == old(handed)
        invariant forall n :: n in ns ==> n in old(ns)
        decreases |ns| - i
      {
        RingLinks(head, ns, i);
        RingDistinct(head, ns);
        var n := tmp.next;
        WithoutStep(q, i, id, opcode);
        if tmp.val.opcode == opcode && tmp.val.id == id {
          Unlink(tmp, i);
        } else {
          i := i + 1;
        }
        tmp := n;
      }
      WithoutMembers(old(q), id, opcode);
      RingDistinct(head, ns);
      Whole(q);
    }
  }

  // Every run of ticks, adds and deletes on the list is the run of the specification,
  // to which TimerRun applies, and hands over exactly the timers that fire, in order.
  method RunEvents(c: Clock, es: seq<Event>)
    requires c.Valid()
    modifies c, c.head`next, c.head`prev, Members(c.ns)`next, Members(c.ns)`prev, Members(c.ns)`val
    ensures c.Valid() && c.q == Run(old(c.q), es)
    ensures c.handed == old(c.handed) + Flat(Firings(old(c.q), es))
  {
    hide IsRing, Holds, Step, Tick, Without, Fired;
    assert es[0..] == es;
    for n := 0 to |es|
      invariant c.Valid() && Run(c.q, es[n..]) == Run(old(c.q), es)
      invariant c.handed + Flat(Firings(c.q, es[n..])) == old(c.handed) + Flat(Firings(old(c.q), es))
      invariant forall x :: x in c.ns ==> x in old(c.ns) || fresh(x)
    {
      assert es[n..][0] == es[n] && es[n..][1..] == es[n + 1..];
      FlatStep(c.q, es[n..], c.handed);
      Perform(c, es[n]);
    }
    assert c.handed + [] == c.handed;
  }

  lemma FlatStep(q: seq<Timer>, es: seq<Event>, handed: seq<Timer>)
    requires es != []
    ensures handed + Flat(Firings(q, es))
         == (handed + if es[0].Ticks? then Fired(q) else []) + Flat(Firings(Step(q, es[0]), es[1..]))
  {
    hide Step, Fired;
    var rest := Firings(Step(q, es[0]), es[1..]);
    if es[0].Ticks? {
      assert ([Fired(q)] + rest)[1..] == rest;
      Assoc(handed, Fired(q), Flat(rest));
    } else {
      assert [] + rest == rest && handed + [] == handed;
    }
  }

  method Perform(c: Clock, e: Event)
    requires c.Valid()
    modifies c, c.head`next, c.head`prev, Members(c.ns)`next, Members(c.ns)`prev, Members(c.ns)`val
    ensures c.Valid() && c.q == Step(old(c.q), e)
    ensures c.handed == old(c.handed) + if e.Ticks? then Fired(old(c.q)) else []
    ensures forall x :: x in c.ns ==> x in old(c.ns) || fresh(x)
  {
    hide IsRing, Holds, Tick, Without, Fired;
    match e {
      case Ticks => c.OnTimeMsg();
      case Adds(t) => c.Add(t.id, t.opcode, t.time, t.ncount);
      case Deletes(id, opcode) => c.Delete(id, opcode);
    }
  }

  lemma Whole(q: seq<Timer>)
    ensures q[0..] == q && q[..|q|] == q && q[|q|..] == []
    ensures Tick([]) == [] && Fired([]) == [] && forall id, o :: Without([], id, o) == []
    ensures forall t: seq<Timer> :: [] + t == t && t + [] == t
  {
  }

  // The timer at position i has aged and stays, or is taken out.
  lemma TickStep(q: seq<Timer>, i: nat, handed: seq<Timer>)
    requires i < |q|
    ensures var q' := q[i := Aged(q[i])];
            && (Aged(q[i]).ncount == 0 ==>
                  var r := q'[..i] + q'[i + 1..];
                  r[..i] + Tick(r[i..]) == q[..i] + Tick(q[i..]) && r[i..] == q[i + 1..])
            && (Aged(q[i]).ncount != 0 ==>
                  q'[..i + 1] + Tick(q'[i + 1..]) == q[..i] + Tick(q[i..]) && q'[i + 1..] == q[i + 1..])
    ensures (handed + Handed(q[i])) + Fired(q[i + 1..]) == handed + Fired(q[i..])
  {
    var q' := q[i := Aged(q[i])];
    assert q[i..][1..] == q[i + 1..] && q'[i + 1..] == q[i + 1..] && q'[..i] == q[..i];
    var r := q'[..i] + q'[i + 1..];
    assert r[..i] == q[..i] && r[i..] == q[i + 1..];
    assert q'[..i + 1] == q[..i] + [Aged(q[i])];
    Assoc(q[..i], [Aged(q[i])], Tick(q[i + 1..]));
    Assoc(handed, Handed(q[i]), Fired(q[i + 1..]));
    assert [] + Tick(q[i + 1..]) == Tick(q[i + 1..]);
    hide Handed;
  }

  lemma WithoutStep(q: seq<Timer>, i: nat, id: string, opcode: int)
    requires i < |q|
    ensures if HasKey(q[i], id, opcode) then
              var r := q[..i] + q[i + 1..];
              r[..i] + Without(r[i..], id, opcode) == q[..i] + Without(q[i..], id, opcode)
            else q[..i + 1] + Without(q[i + 1..], id, opcode) == q[..i] + Without(q[i..], id, opcode)
  {
    assert q[i..][1..] == q[i + 1..];
    var r := q[..i] + q[i + 1..];
    assert r[..i] == q[..i] && r[i..] == q[i + 1..];
    Assoc(q[..i], [q[i]], Without(q[i + 1..], id, opcode));
    assert [] + Without(q[i + 1..], id, opcode) == Without(q[i + 1..], id, opcode);
  }
}
