/** Dictionaries of values as `values.cc` and `base_values.cc` treat them: merging,
    dotted paths and copying without empty children. */
module ValueTree {
  import opened Wrappers
  import opened JsonLex
  import opened JsonValue

  // ---------- lookups ----------

  lemma {:induction false} FindPut(es: seq<Entry>, k: Text, v: Value, q: Text)
    ensures Find(Put(es, k, v), q) == if q == k then Some(v) else Find(es, q)
  {
    if es == [] || Less(k, es[0].key) {
      assert ([Entry(k, v)] + es)[1..] == es;
    } else if es[0].key == k {
      assert ([Entry(k, v)] + es[1..])[1..] == es[1..];
    } else {
      FindPut(es[1..], k, v, q);
      assert ([es[0]] + Put(es[1..], k, v))[1..] == Put(es[1..], k, v);
    }
  }

  lemma {:induction false} FindErase(es: seq<Entry>, k: Text, q: Text)
    requires Ascending(es)
    ensures Find(Erase(es, k), q) == if q == k then None else Find(es, q)
  {
    if es != [] {
      AscendingTail(es);
      hide Ascending;
      if es[0].key == k {
        KeyAbsent(es[1..], k);
      } else {
        FindErase(es[1..], k, q);
        assert ([es[0]] + Erase(es[1..], k))[1..] == Erase(es[1..], k);
      }
    }
  }

  lemma KeyAbsent(es: seq<Entry>, k: Text)
    requires forall e :: e in es ==> Less(k, e.key)
    ensures Find(es, k).None?
  {
    FindIn(es, k);
    LessIrreflexive(k);
  }

  // Dictionaries in key order are equal when all lookups are.
  lemma {:induction false} SameLookups(a: seq<Entry>, b: seq<Entry>)
    requires Ascending(a) && Ascending(b)
    requires forall q :: Find(a, q) == Find(b, q)
    ensures a == b
    decreases |a| + |b|
  {
    assert b != [] ==> Find(b, b[0].key) == Find(a, b[0].key);
    assert a != [] ==> Find(a, a[0].key) == Find(b, a[0].key);
    if a != [] {
      AscendingTail(a);
      AscendingTail(b);
      hide Ascending;
      FirstKeys(a, b);
      FirstKeys(b, a);
      LessTotal(a[0].key, b[0].key);
      forall q
        ensures Find(a[1..], q) == Find(b[1..], q)
      {
        KeyAbsent(a[1..], a[0].key);
        KeyAbsent(b[1..], b[0].key);
        assert Find(a, q) == Find(b, q);
      }
      SameLookups(a[1..], b[1..]);
      assert Find(a, a[0].key) == Find(b, a[0].key);
      assert a == [a[0]] + a[1..] && b == [b[0]] + b[1..];
    }
  }

  lemma FirstKeys(a: seq<Entry>, b: seq<Entry>)
    requires a != [] && b != [] && forall e :: e in b[1..] ==> Less(b[0].key, e.key)
    requires Find(b, a[0].key) == Find(a, a[0].key)
    ensures !Less(a[0].key, b[0].key)
  {
    var k := a[0].key;
    FindIn(b, k);
    LessIrreflexive(k);
    var e := Entry(k, Find(b, k).value);
    if e in b[1..] {
      LessAsymmetric(b[0].key, k);
    } else {
      assert b == [b[0]] + b[1..];
    }
  }

  // Every dictionary inside is in key order.
  predicate Ordered(v: Value) {
    match v
    case List(items) => forall x :: x in items ==> Ordered(x)
    case Dict(es) =>
      && (forall i, j :: 0 <= i < j < |es| ==> Less(es[i].key, es[j].key))
      && (forall e :: e in es ==> Ordered(e.value))
    case _ => true
  }

  // ---------- merging ----------

  // What a key of b becomes, `prior` being the value a has for it.
  function Resolve(prior: Option<Value>, v: Value): Value
    decreases v, 0
  {
    if v.Dict? && prior.Some? && prior.value.Dict? then Dict(Merge(prior.value.entries, v.entries)) else v
  }

  // MergeDictionary: the entries of b are put into a in turn.
  function Merge(a: seq<Entry>, b: seq<Entry>): seq<Entry>
    decreases b, 1
  {
    if b == [] then a
    else Merge(Put(a, b[0].key, Resolve(Find(a, b[0].key), b[0].value)), b[1..])
  }

  lemma {:induction false} MergeResolves(a: seq<Entry>, b: seq<Entry>, q: Text)
    requires Ascending(b)
    ensures Find(Merge(a, b), q)
         == match Find(b, q) case None => Find(a, q) case Some(v) => Some(Resolve(Find(a, q), v))
    decreases |b|
  {
    if b != [] {
      hide Resolve, Put;
      var k, x := b[0].key, Resolve(Find(a, b[0].key), b[0].value);
      AscendingTail(b);
      MergeResolves(Put(a, k, x), b[1..], q);
      FindPut(a, k, x, q);
      KeyAbsent(b[1..], k);
    }
  }

  // The merge is the right-biased recursive union: under a key at which both have a
  // dictionary stands the merge of the two, under any other key of b the value of b, and
  // under a key that b lacks what a has there.
  lemma MergeLookup(a: seq<Entry>, b: seq<Entry>, q: Text)
    requires Ascending(b)
    ensures var x, y := Find(a, q), Find(b, q);
            Find(Merge(a, b), q)
            == if y.None? then x
               else if x.Some? && x.value.Dict? && y.value.Dict? then Some(Dict(Merge(x.value.entries, y.value.entries)))
               else y
  {
    MergeResolves(a, b, q);
    hide Find, Ascending;
  }

  lemma {:induction false} MergeAscending(a: seq<Entry>, b: seq<Entry>)
    requires Ascending(a)
    ensures Ascending(Merge(a, b))
    decreases |b|
  {
    if b != [] {
      hide Ascending, Resolve, Put;
      var x := Resolve(Find(a, b[0].key), b[0].value);
      PutAscending(a, b[0].key, x);
      MergeAscending(Put(a, b[0].key, x), b[1..]);
    }
  }

  lemma {:induction false} MergeSelf(es: seq<Entry>)
    requires Ordered(Dict(es))
    ensures Merge(es, es) == es
    decreases es, 1
  {
    assert Ascending(es);
    hide Merge, Resolve, Ascending;
    MergeAscending(es, es);
    forall q
      ensures Find(Merge(es, es), q) == Find(es, q)
    {
      MergeResolves(es, es, q);
      FindIn(es, q);
      if Find(es, q).Some? {
        ResolveSelf(Find(es, q).value);
      }
    }
    SameLookups(Merge(es, es), es);
  }

  lemma {:induction false} ResolveSelf(v: Value)
    requires Ordered(v)
    ensures Resolve(Some(v), v) == v
    decreases v, 0
  {
    if v.Dict? {
      MergeSelf(v.entries);
    }
  }

  // Merging b a second time changes nothing.
  lemma {:induction false} MergeIdempotent(a: seq<Entry>, b: seq<Entry>)
    requires Ordered(Dict(a)) && Ordered(Dict(b))
    ensures Merge(Merge(a, b), b) == Merge(a, b)
    decreases b, 1
  {
    assert Ascending(a) && Ascending(b);
    hide Merge, Resolve, Ascending;
    MergeAscending(a, b);
    MergeAscending(Merge(a, b), b);
    forall q
      ensures Find(Merge(Merge(a, b), b), q) == Find(Merge(a, b), q)
    {
      MergeResolves(a, b, q);
      MergeResolves(Merge(a, b), b, q);
      FindIn(a, q);
      FindIn(b, q);
      if Find(b, q).Some? {
        ResolveTwice(Find(a, q), Find(b, q).value);
      }
    }
    SameLookups(Merge(Merge(a, b), b), Merge(a, b));
  }

  lemma {:induction false} ResolveTwice(prior: Option<Value>, v: Value)
    requires Ordered(v) && (prior.Some? ==> Ordered(prior.value))
    ensures Resolve(Some(Resolve(prior, v)), v) == Resolve(prior, v)
    decreases v, 0
  {
    if v.Dict? {
      if prior.Some? && prior.value.Dict? {
        MergeIdempotent(prior.value.entries, v.entries);
      } else {
        MergeSelf(v.entries);
      }
    }
  }

  // Merging keeps every dictionary in key order.
  lemma {:induction false} MergeOrdered(a: seq<Entry>, b: seq<Entry>)
    requires Ordered(Dict(a)) && Ordered(Dict(b))
    ensures Ordered(Dict(Merge(a, b)))
    decreases b, 1
  {
    assert Ascending(a) && Ascending(b);
    MergeAscending(a, b);
    forall e | e in Merge(a, b)
      ensures Ordered(e.value)
    {
      MergeResolves(a, b, e.key);
      EntryFound(Merge(a, b), e);
      FindIn(a, e.key);
      FindIn(b, e.key);
      if Find(b, e.key).Some? {
        ResolveOrdered(Find(a, e.key), Find(b, e.key).value);
      }
    }
  }

  lemma {:induction false} ResolveOrdered(prior: Option<Value>, v: Value)
    requires Ordered(v) && (prior.Some? ==> Ordered(prior.value))
    ensures Ordered(Resolve(prior, v))
    decreases v, 0
  {
    if v.Dict? && prior.Some? && prior.value.Dict? {
      MergeOrdered(prior.value.entries, v.entries);
    }
  }

  lemma {:induction false} EntryFound(es: seq<Entry>, e: Entry)
    requires Ascending(es) && e in es
    ensures Find(es, e.key) == Some(e.value)
  {
    AscendingTail(es);
    assert es == [es[0]] + es[1..];
    if e != es[0] {
      LessIrreflexive(e.key);
      EntryFound(es[1..], e);
    }
  }

  // ---------- dotted paths ----------

  // The position of the first '.', or the length of the path.
  function DotAt(p: Text): (n: nat)
    ensures n <= |p| && (forall i :: 0 <= i < n ==> p[i] != DOT) && (n < |p| ==> p[n] == DOT)
  {
    if p == [] || p[0] == DOT then 0 else 1 + DotAt(p[1..])
  }

  // The dictionary under key k, when the value there is one.
  function Child(es: seq<Entry>, k: Text): Option<seq<Entry>> {
    match Find(es, k)
    case Some(Dict(sub)) => Some(sub)
    case _ => None
  }

  function Get(es: seq<Entry>, p: Text): Option<Value>
    decreases |p|
  {
    var n := DotAt(p);
    if n == |p| then Find(es, p)
    else match Child(es, p[..n])
      case None => None
      case Some(sub) => Get(sub, p[n + 1..])
  }

  // Set: whatever is not a dictionary on the way is replaced by an empty one.
  function Set(es: seq<Entry>, p: Text, v: Value): seq<Entry>
    decreases |p|
  {
    var n := DotAt(p);
    if n == |p| then Put(es, p, v)
    else
      var sub := match Child(es, p[..n]) case None => [] case Some(s) => s;
      Put(es, p[..n], Dict(Set(sub, p[n + 1..], v)))
  }

  // Path p followed by path r.
  function Dotted(p: Text, r: Text): Text {
    p + ([DOT] + r)
  }

  // p is a proper prefix of q in whole components.
  predicate Extends(q: Text, p: Text) {
    |p| < |q| && q[..|p|] == p && q[|p|] == DOT
  }

  lemma ExtendsDotted(q: Text, p: Text)
    requires Extends(q, p)
    ensures q == Dotted(p, q[|p| + 1..])
  {
  }

  lemma DotAtIs(p: Text, n: nat)
    requires n <= |p| && (forall i :: 0 <= i < n ==> p[i] != DOT) && (n < |p| ==> p[n] == DOT)
    ensures DotAt(p) == n
  {
  }

  lemma {:induction false} DottedFirst(p: Text, r: Text)
    ensures DotAt(Dotted(p, r)) == DotAt(p)
    ensures Dotted(p, r)[..DotAt(p)] == p[..DotAt(p)]
    ensures Dotted(p, r)[DotAt(p) + 1..] == if DotAt(p) == |p| then r else Dotted(p[DotAt(p) + 1..], r)
  {
    var n := DotAt(p);
    assert Dotted(p, r)[..n] == p[..n];
    DotAtIs(Dotted(p, r), n);
  }

  // A path is followed component by component.
  lemma {:induction false} GetDotted(es: seq<Entry>, p: Text, r: Text)
    ensures Get(es, Dotted(p, r)) == match Get(es, p) case Some(Dict(sub)) => Get(sub, r) case _ => None
    decreases |p|
  {
    var n := DotAt(p);
    DottedFirst(p, r);
    if n < |p| {
      match Child(es, p[..n]) {
        case None =>
        case Some(sub) => GetDotted(sub, p[n + 1..], r);
      }
    } else {
      assert p[..n] == p;
    }
    hide DotAt, Dotted;
  }

  // What Set stores under the first component of the path.
  function Stored(es: seq<Entry>, p: Text, v: Value): Value {
    var n := DotAt(p);
    if n == |p| then v
    else Dict(Set(match Child(es, p[..n]) case None => [] case Some(s) => s, p[n + 1..], v))
  }

  lemma SetStores(es: seq<Entry>, p: Text, v: Value, q: Text)
    ensures Find(Set(es, p, v), q) == if q == p[..DotAt(p)] then Some(Stored(es, p, v)) else Find(es, q)
  {
    hide Put, DotAt, Child, Find;
    assert p[..|p|] == p;
    FindPut(es, p[..DotAt(p)], Stored(es, p, v), q);
  }

  // Get looks at one entry of the dictionary only.
  lemma GetByFirst(es: seq<Entry>, es': seq<Entry>, q: Text)
    requires Find(es, q[..DotAt(q)]) == Find(es', q[..DotAt(q)])
    ensures Get(es, q) == Get(es', q)
  {
    hide Find, DotAt;
    assert q[..|q|] == q;
  }

  // A value that is no dictionary stands on the way to the path.
  ghost predicate Blocked(es: seq<Entry>, p: Text) {
    exists m :: 0 <= m < |p| && p[m] == DOT && Blocks(es, p[..m])
  }

  ghost predicate Blocks(es: seq<Entry>, p: Text) {
    Get(es, p).Some? && !Get(es, p).value.Dict?
  }

  // The merge by paths, at any depth: where both have a dictionary stands the merge of
  // the two; elsewhere what b has there; and where b has nothing, what a has there, unless
  // b has something other than a dictionary on the way: then nothing.
  lemma {:induction false} MergePath(a: seq<Entry>, b: seq<Entry>, p: Text)
    requires Ordered(Dict(b))
    ensures var x, y := Get(a, p), Get(b, p);
            Get(Merge(a, b), p)
            == if y.None? then if Blocked(b, p) then None else x
               else if x.Some? && x.value.Dict? && y.value.Dict? then Some(Dict(Merge(x.value.entries, y.value.entries)))
               else y
    decreases |p|
  {
    hide Find, Merge, Ascending, DotAt, Blocked;
    var n := DotAt(p);
    var k := p[..n];
    OrderedAscending(b);
    MergeLookup(a, b, k);
    if n == |p| {
      assert k == p;
      NotBlocked(b, p);
    } else {
      BlockedBy(b, p);
      if Child(b, k).Some? && Child(a, k).Some? {
        ChildOrdered(b, k);
        MergePath(Child(a, k).value, Child(b, k).value, p[n + 1..]);
      }
    }
  }

  lemma OrderedAscending(es: seq<Entry>)
    requires Ordered(Dict(es))
    ensures Ascending(es)
  {
  }

  lemma ChildOrdered(es: seq<Entry>, k: Text)
    requires Ordered(Dict(es)) && Child(es, k).Some?
    ensures Ordered(Dict(Child(es, k).value))
  {
    hide Find;
    FindIn(es, k);
  }

  lemma NotBlocked(es: seq<Entry>, p: Text)
    requires DotAt(p) == |p|
    ensures !Blocked(es, p)
  {
  }

  lemma {:induction false} BlockedBy(es: seq<Entry>, p: Text)
    requires DotAt(p) < |p|
    ensures var n := DotAt(p);
            Blocked(es, p) <==> match Find(es, p[..n])
                                case None => false
                                case Some(Dict(sub)) => Blocked(sub, p[n + 1..])
                                case Some(_) => true
  {
    hide Find, Get, DotAt;
    var n := DotAt(p);
    var r := p[n + 1..];
    forall m | 0 <= m < |p| && p[m] == DOT
      ensures n <= m
      ensures Get(es, p[..m]) == if m == n then Find(es, p[..n])
                                 else match Child(es, p[..n]) case None => None case Some(sub) => Get(sub, r[..m - n - 1])
    {
      GetPrefix(es, p, m);
    }
    if Child(es, p[..n]).Some? {
      var sub := Child(es, p[..n]).value;
      if Blocked(sub, r) {
        var m :| 0 <= m < |r| && r[m] == DOT && Blocks(sub, r[..m]);
        assert p[n + 1 + m] == DOT && Blocks(es, p[..n + 1 + m]);
      }
    } else if Find(es, p[..n]).Some? {
      assert Blocks(es, p[..n]);
    }
  }

  lemma {:induction false} GetPrefix(es: seq<Entry>, p: Text, m: nat)
    requires m < |p| && p[m] == DOT
    ensures var n := DotAt(p);
            && n <= m
            && Get(es, p[..m]) == if m == n then Find(es, p[..n])
                                  else match Child(es, p[..n])
                                    case None => None
                                    case Some(sub) => Get(sub, p[n + 1..][..m - n - 1])
  {
    hide Find, DotAt, Child;
    DotPrefix(p, m);
  }

  lemma {:induction false} DotPrefix(p: Text, m: nat)
    requires m < |p| && p[m] == DOT
    ensures var n := DotAt(p);
            && n <= m && DotAt(p[..m]) == n
            && (m > n ==> p[..m][..n] == p[..n] && p[..m][n + 1..] == p[n + 1..][..m - n - 1])
  {
    var n := DotAt(p);
    assert n <= m;
    DotAtIs(p[..m], n);
    hide DotAt;
  }

  lemma {:induction false} SetGet(es: seq<Entry>, p: Text, v: Value)
    ensures Get(Set(es, p, v), p) == Some(v)
    decreases |p|
  {
    hide Set, Find, DotAt;
    var n := DotAt(p);
    SetStores(es, p, v, p[..n]);
    if n == |p| {
      assert p[..n] == p;
    } else {
      SetGet(match Child(es, p[..n]) case None => [] case Some(s) => s, p[n + 1..], v);
    }
  }

  // Below the path, the new value is seen.
  lemma {:induction false} SetGetBelow(es: seq<Entry>, p: Text, v: Value, r: Text)
    ensures Get(Set(es, p, v), Dotted(p, r)) == match v case Dict(sub) => Get(sub, r) case _ => None
  {
    SetGet(es, p, v);
    GetDotted(Set(es, p, v), p, r);
  }

  // Above the path stands a dictionary; one that was there before is changed below only.
  lemma {:induction false} SetGetAbove(es: seq<Entry>, p: Text, r: Text, v: Value)
    ensures var sub := match Get(es, p) case Some(Dict(s)) => s case _ => [];
            Get(Set(es, Dotted(p, r), v), p) == Some(Dict(Set(sub, r, v)))
    decreases |p|
  {
    hide Set, Find, DotAt, Dotted;
    var n := DotAt(p);
    DottedFirst(p, r);
    DottedLonger(p, r);
    SetStores(es, Dotted(p, r), v, p[..n]);
    if n < |p| {
      SetGetAbove(match Child(es, p[..n]) case None => [] case Some(s) => s, p[n + 1..], r, v);
      NothingBelow(p[n + 1..]);
    } else {
      assert p[..n] == p;
    }
  }

  lemma DottedLonger(p: Text, r: Text)
    ensures |Dotted(p, r)| > |p|
  {
  }

  lemma NothingBelow(p: Text)
    ensures Get([], p) == None
  {
  }

  lemma {:induction false} ExtendsTail(p: Text, q: Text)
    requires DotAt(p) == DotAt(q) < |p| && DotAt(q) < |q| && p[..DotAt(p)] == q[..DotAt(q)]
    ensures var n := DotAt(p) + 1; (p[n..] == q[n..] ==> p == q) && (Extends(p[n..], q[n..]) ==> Extends(p, q))
  {
    var n := DotAt(p) + 1;
    assert p == p[..n - 1] + [DOT] + p[n..];
    assert q == q[..n - 1] + [DOT] + q[n..];
    if Extends(p[n..], q[n..]) {
      ExtendsDotted(p[n..], q[n..]);
    }
  }

  // Every other path is unchanged.
  lemma {:induction false} SetGetOther(es: seq<Entry>, p: Text, v: Value, q: Text)
    requires q != p && !Extends(q, p) && !Extends(p, q)
    ensures Get(Set(es, p, v), q) == Get(es, q)
    decreases |p|
  {
    hide Set, DotAt, Find, Extends;
    var n, m := DotAt(p), DotAt(q);
    SetStores(es, p, v, q[..m]);
    if p[..n] != q[..m] {
      GetByFirst(es, Set(es, p, v), q);
    } else {
      SameFirst(p, q);
      ExtendsTail(p, q);
      ExtendsTail(q, p);
      var sub := match Child(es, p[..n]) case None => [] case Some(s) => s;
      SetGetOther(sub, p[n + 1..], v, q[m + 1..]);
      NothingBelow(q[m + 1..]);
    }
  }

  lemma SameFirst(p: Text, q: Text)
    requires q != p && !Extends(q, p) && !Extends(p, q) && p[..DotAt(p)] == q[..DotAt(q)]
    ensures DotAt(p) == DotAt(q) < |p| && DotAt(q) < |q|
  {
    var n := DotAt(p);
    assert |p[..n]| == |q[..DotAt(q)]|;
    assert p[..|p|] == p && q[..|q|] == q;
  }

  // ---------- removing ----------

  // rfind('.'): the position behind the last '.', or 0.
  function LastStart(p: Text): (n: nat)
    ensures n <= |p| && DOT !in p[n..] && (n > 0 ==> p[n - 1] == DOT)
  {
    if p == [] then 0
    else if p[|p| - 1] == DOT then |p|
    else LastStart(p[..|p| - 1])
  }

  // Remove: the value and what is left; the parent dictionary stays, even when empty.
  function Remove(es: seq<Entry>, p: Text): Option<(Value, seq<Entry>)> {
    var n := LastStart(p);
    if n == 0 then
      match Find(es, p)
      case None => None
      case Some(v) => Some((v, Erase(es, p)))
    else
      match Get(es, p[..n - 1])
      case Some(Dict(sub)) => (
        match Find(sub, p[n..])
        case None => None
        case Some(v) => Some((v, Set(es, p[..n - 1], Dict(Erase(sub, p[n..]))))))
      case _ => None
  }

  lemma NoDot(p: Text)
    requires DOT !in p
    ensures DotAt(p) == |p| && forall es :: Get(es, p) == Find(es, p)
  {
    assert p[..|p|] == p;
    DotAtIs(p, |p|);
  }

  // Remove answers exactly when Get does, with the same value.
  lemma RemoveIffGet(es: seq<Entry>, p: Text)
    ensures Remove(es, p).Some? <==> Get(es, p).Some?
    ensures Remove(es, p).Some? ==> Get(es, p) == Some(Remove(es, p).value.0)
  {
    var n := LastStart(p);
    NoDot(p[n..]);
    if n == 0 {
      assert p[0..] == p;
    } else {
      assert p == Dotted(p[..n - 1], p[n..]);
      GetDotted(es, p[..n - 1], p[n..]);
    }
    hide LastStart, Find, Set, Erase, DotAt, Dotted;
  }

  lemma {:induction false} GetOrdered(es: seq<Entry>, p: Text)
    requires Ordered(Dict(es)) && Get(es, p).Some?
    ensures Ordered(Get(es, p).value)
    decreases |p|
  {
    var n := DotAt(p);
    FindIn(es, p[..n]);
    FindIn(es, p);
    if n < |p| {
      GetOrdered(Child(es, p[..n]).value, p[n + 1..]);
    }
  }

  // Get goes through a dictionary that holds no other value for the first component.
  lemma GetErased(sub: seq<Entry>, k: Text, r: Text)
    requires Ascending(sub) && DOT !in k
    ensures Get(Erase(sub, k), r) == if r == k || Extends(r, k) then None else Get(sub, r)
  {
    hide Ascending, Erase;
    var m := DotAt(r);
    FindErase(sub, k, r[..m]);
    assert r[..|r|] == r;
    if r[..m] != k {
      GetByFirst(sub, Erase(sub, k), r);
      FirstIsNot(r, k);
    }
  }

  lemma FirstIsNot(r: Text, k: Text)
    requires DOT !in k && r[..DotAt(r)] != k
    ensures r != k && !Extends(r, k)
  {
    NoDot(k);
    assert k[..|k|] == k;
    if Extends(r, k) {
      ExtendsDotted(r, k);
      DottedFirst(k, r[|k| + 1..]);
    }
  }

  lemma DottedExtends(t: Text, k: Text, q: Text)
    requires DOT !in k
    ensures q == Dotted(t, k) || Extends(q, Dotted(t, k)) ==> Extends(q, t)
    ensures Extends(q, t) ==> |t| + 1 <= |q|
    ensures Extends(q, t) ==>
              && (q == Dotted(t, k) <==> q[|t| + 1..] == k)
              && (Extends(q, Dotted(t, k)) <==> Extends(q[|t| + 1..], k))
    ensures q == t || Extends(t, q) ==> Extends(Dotted(t, k), q) && q != Dotted(t, k) && !Extends(q, Dotted(t, k))
  {
    var p := Dotted(t, k);
    assert p[..|t|] == t && p[|t|] == DOT && p[|t| + 1..] == k;
    if Extends(q, p) {
      assert q[..|p|][..|t|] == q[..|t|] && q[|t|] == q[..|p|][|t|];
    }
    if Extends(q, t) {
      var r := q[|t| + 1..];
      assert q == Dotted(t, r);
      assert |k| <= |r| ==> q[..|p|] == Dotted(t, r[..|k|]);
      assert |k| <= |r| ==> Dotted(t, r[..|k|])[|t| + 1..] == r[..|k|];
    }
    if Extends(t, q) {
      assert p[..|q|] == t[..|q|];
    }
  }

  lemma RemoveBelow(es: seq<Entry>, t: Text, k: Text, sub: seq<Entry>, q: Text)
    requires Get(es, t) == Some(Dict(sub)) && Ascending(sub) && DOT !in k
    ensures var es', p := Set(es, t, Dict(Erase(sub, k))), Dotted(t, k);
            && (q == p || Extends(q, p) ==> Get(es', q).None?)
            && (q != p && !Extends(q, p) ==> (Get(es', q).Some? <==> Get(es, q).Some?))
            && (q != p && !Extends(q, p) && !Extends(p, q) ==> Get(es', q) == Get(es, q))
  {
    hide Get, Set, Erase, Dotted, Extends, Ascending;
    var v := Dict(Erase(sub, k));
    DottedExtends(t, k, q);
    if Extends(q, t) {
      var r := Below(q, t);
      SetGetBelow(es, t, v, r);
      GetDotted(es, t, r);
      GetErased(sub, k, r);
    } else if q == t {
      SetGet(es, t, v);
    } else if Extends(t, q) {
      var r := Below(t, q);
      SetGetAbove(es, q, r, v);
      GetDotted(es, q, r);
    } else {
      SetGetOther(es, t, v, q);
    }
  }

  lemma Below(q: Text, t: Text) returns (r: Text)
    requires Extends(q, t)
    ensures q == Dotted(t, r) && |t| + 1 <= |q| && r == q[|t| + 1..]
  {
    r := q[|t| + 1..];
  }

  // After removing p, exactly p and the paths below it are gone; paths that are not
  // above it keep their values.
  lemma RemoveGet(es: seq<Entry>, p: Text, q: Text)
    requires Ordered(Dict(es)) && Remove(es, p).Some?
    ensures var es' := Remove(es, p).value.1;
            && (q == p || Extends(q, p) ==> Get(es', q).None?)
            && (q != p && !Extends(q, p) ==> (Get(es', q).Some? <==> Get(es, q).Some?))
            && (q != p && !Extends(q, p) && !Extends(p, q) ==> Get(es', q) == Get(es, q))
  {
    var n := LastStart(p);
    var k := p[n..];
    if n == 0 {
      assert p[0..] == p;
      GetErased(es, p, q);
    } else {
      var t := p[..n - 1];
      var sub := Get(es, t).value.entries;
      assert p == Dotted(t, k);
      GetOrdered(es, t);
      RemoveBelow(es, t, k, sub, q);
    }
  }

  // Removing goes into the dictionary under the first component.
  lemma {:induction false} RemoveUnfolds(es: seq<Entry>, p: Text)
    requires DotAt(p) < |p|
    ensures var n := DotAt(p);
            Remove(es, p) == match Child(es, p[..n])
                             case None => None
                             case Some(sub) => match Remove(sub, p[n + 1..])
                               case None => None
                               case Some(r) => Some((r.0, Put(es, p[..n], Dict(r.1))))
  {
    hide DotAt, LastStart, Put, Erase, Find, Set, Get;
    var n, m := DotAt(p), LastStart(p);
    LastBehindFirst(p);
    var t := p[..m - 1];
    assert p[n + 1..][m - n - 1..] == p[m..];
    if m == n + 1 {
      OneComponent(es, t);
      assert p[n + 1..][0..] == p[n + 1..];
    } else {
      assert t[..n] == p[..n] && t[n + 1..] == p[n + 1..][..m - n - 2];
      MoreComponents(es, t, n);
    }
  }

  lemma OneComponent(es: seq<Entry>, t: Text)
    requires DOT !in t
    ensures Get(es, t) == Find(es, t) && forall v :: Set(es, t, v) == Put(es, t, v)
  {
    NoDot(t);
  }

  lemma {:induction false} MoreComponents(es: seq<Entry>, t: Text, n: nat)
    requires n < |t| && DOT !in t[..n] && t[n] == DOT
    ensures Get(es, t) == match Child(es, t[..n]) case None => None case Some(sub) => Get(sub, t[n + 1..])
    ensures forall v :: Child(es, t[..n]).Some? ==>
              Set(es, t, v) == Put(es, t[..n], Dict(Set(Child(es, t[..n]).value, t[n + 1..], v)))
  {
    hide Find, Put;
    assert forall i :: 0 <= i < n ==> t[i] == t[..n][i];
    DotAtIs(t, n);
  }

  lemma {:induction false} LastBehindFirst(p: Text)
    requires DotAt(p) < |p|
    ensures DotAt(p) < LastStart(p) && LastStart(p[DotAt(p) + 1..]) == LastStart(p) - DotAt(p) - 1
    ensures DOT !in p[..DotAt(p)]
    decreases |p|
  {
    var n := DotAt(p);
    if p[|p| - 1] == DOT {
      assert n == |p| - 1 || p[n + 1..][|p| - n - 2] == DOT;
    } else {
      var q := p[..|p| - 1];
      DotAtIs(q, n);
      LastBehindFirst(q);
      assert p[n + 1..][..|p| - n - 2] == q[n + 1..];
    }
  }

  // ---------- copying without empty children ----------

  // CopyWithoutEmptyChildren: None is its NULL.
  function Pruned(v: Value): (r: Option<Value>)
    decreases v, 0
  {
    match v
    case List(items) => var xs := PrunedItems(items); if xs == [] then None else Some(List(xs))
    case Dict(es) => var xs := PrunedEntries(es); if xs == [] then None else Some(Dict(xs))
    case _ => Some(v)
  }

  function PrunedItems(items: seq<Value>): seq<Value>
    decreases items, 1
  {
    if items == [] then []
    else (match Pruned(items[0]) case None => [] case Some(x) => [x]) + PrunedItems(items[1..])
  }

  function PrunedEntries(es: seq<Entry>): seq<Entry>
    decreases es, 1
  {
    if es == [] then []
    else (match Pruned(es[0].value) case None => [] case Some(x) => [Entry(es[0].key, x)]) + PrunedEntries(es[1..])
  }

  // No list or dictionary in it is empty.
  predicate Full(v: Value) {
    match v
    case List(items) => items != [] && forall x :: x in items ==> Full(x)
    case Dict(es) => es != [] && forall e :: e in es ==> Full(e.value)
    case _ => true
  }

  // The scalars of a tree, each with the keys that lead to it, in order.
  function Leaves(keys: seq<Text>, v: Value): seq<(seq<Text>, Value)>
    decreases v, 0
  {
    match v
    case List(items) => ItemLeaves(keys, items)
    case Dict(es) => EntryLeaves(keys, es)
    case _ => [(keys, v)]
  }

  function ItemLeaves(keys: seq<Text>, items: seq<Value>): seq<(seq<Text>, Value)>
    decreases items, 1
  {
    if items == [] then [] else Leaves(keys, items[0]) + ItemLeaves(keys, items[1..])
  }

  function EntryLeaves(keys: seq<Text>, es: seq<Entry>): seq<(seq<Text>, Value)>
    decreases es, 1
  {
    if es == [] then [] else Leaves(keys + [es[0].key], es[0].value) + EntryLeaves(keys, es[1..])
  }

  // The copy has no empty children and exactly the scalars of the original, and there
  // is no copy exactly when there are no scalars.
  lemma {:induction false} PruneKeepsLeaves(keys: seq<Text>, v: Value)
    ensures Pruned(v).None? <==> Leaves(keys, v) == []
    ensures Pruned(v).Some? ==> Full(Pruned(v).value) && Leaves(keys, Pruned(v).value) == Leaves(keys, v)
    decreases v, 0
  {
    match v {
      case List(items) => PruneKeepsItems(keys, items);
      case Dict(es) => PruneKeepsEntries(keys, es);
      case _ =>
    }
  }

  lemma {:induction false} PruneKeepsItems(keys: seq<Text>, items: seq<Value>)
    ensures PrunedItems(items) == [] <==> ItemLeaves(keys, items) == []
    ensures forall x :: x in PrunedItems(items) ==> Full(x)
    ensures ItemLeaves(keys, PrunedItems(items)) == ItemLeaves(keys, items)
    decreases items, 1
  {
    if items != [] {
      PruneKeepsLeaves(keys, items[0]);
      PruneKeepsItems(keys, items[1..]);
      hide Pruned, Leaves, Full;
      var rest := PrunedItems(items[1..]);
      assert Pruned(items[0]).Some? ==> ([Pruned(items[0]).value] + rest)[1..] == rest;
      assert [] + rest == rest;
    }
  }

  lemma {:induction false} PruneKeepsEntries(keys: seq<Text>, es: seq<Entry>)
    ensures PrunedEntries(es) == [] <==> EntryLeaves(keys, es) == []
    ensures forall e :: e in PrunedEntries(es) ==> Full(e.value)
    ensures EntryLeaves(keys, PrunedEntries(es)) == EntryLeaves(keys, es)
    decreases es, 1
  {
    if es != [] {
      PruneKeepsLeaves(keys + [es[0].key], es[0].value);
      PruneKeepsEntries(keys, es[1..]);
      hide Pruned, Leaves, Full;
      var rest := PrunedEntries(es[1..]);
      assert Pruned(es[0].value).Some? ==> ([Entry(es[0].key, Pruned(es[0].value).value)] + rest)[1..] == rest;
      assert [] + rest == rest;
    }
  }

  // A tree without empty children is copied as it is.
  lemma {:induction false} PruneFull(v: Value)
    requires Full(v)
    ensures Pruned(v) == Some(v)
    decreases v, 0
  {
    match v {
      case List(items) => PruneFullItems(items);
      case Dict(es) => PruneFullEntries(es);
      case _ =>
    }
  }

  lemma {:induction false} PruneFullItems(items: seq<Value>)
    requires forall x :: x in items ==> Full(x)
    ensures PrunedItems(items) == items
    decreases items, 1
  {
    if items != [] {
      PruneFull(items[0]);
      PruneFullItems(items[1..]);
      assert [items[0]] + items[1..] == items;
    }
  }

  lemma {:induction false} PruneFullEntries(es: seq<Entry>)
    requires forall e :: e in es ==> Full(e.value)
    ensures PrunedEntries(es) == es
    decreases es, 1
  {
    if es != [] {
      PruneFull(es[0].value);
      PruneFullEntries(es[1..]);
      assert [es[0]] + es[1..] == es;
    }
  }

  // Under every key of the copy stands the copy of what was there.
  lemma {:induction false} PruneLookup(es: seq<Entry>, k: Text)
    requires Ascending(es)
    ensures Find(PrunedEntries(es), k) == if Find(es, k).Some? then Pruned(Find(es, k).value) else None
  {
    if es != [] {
      AscendingTail(es);
      PruneLookup(es[1..], k);
      if es[0].key == k {
        KeyAbsent(es[1..], k);
      }
      hide Pruned, Ascending;
      var rest := PrunedEntries(es[1..]);
      assert Pruned(es[0].value).Some? ==> ([Entry(es[0].key, Pruned(es[0].value).value)] + rest)[1..] == rest;
      assert [] + rest == rest;
    }
  }

  // So it is at every path: the copy has there the copy of what was there, and nothing
  // where that has none.
  lemma {:induction false} PrunePath(es: seq<Entry>, p: Text)
    requires Ordered(Dict(es))
    ensures Get(PrunedEntries(es), p) == if Get(es, p).Some? then Pruned(Get(es, p).value) else None
    decreases |p|
  {
    hide Find, DotAt, Ascending, PrunedEntries;
    OrderedAscending(es);
    var n := DotAt(p);
    PruneLookup(es, p[..n]);
    if n == |p| {
      assert p[..n] == p;
    } else if Child(es, p[..n]).Some? {
      ChildOrdered(es, p[..n]);
      PrunePath(Child(es, p[..n]).value, p[n + 1..]);
      NothingBelow(p[n + 1..]);
    }
  }

  // The elements of the copy of a list are, in order, the copies of those that have one.
  lemma {:induction false} PruneSplits(a: seq<Value>, b: seq<Value>, x: Value)
    ensures PrunedItems(a + b) == PrunedItems(a) + PrunedItems(b)
    ensures PrunedItems([x]) == if Pruned(x).Some? then [Pruned(x).value] else []
  {
    hide Pruned;
    assert [x][1..] == [];
    if a == [] {
      assert a + b == b && [] + PrunedItems(b) == PrunedItems(b);
    } else {
      PruneSplits(a[1..], b, x);
      assert (a + b)[1..] == a[1..] + b && (a + b)[0] == a[0];
    }
  }
}
