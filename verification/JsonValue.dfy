/** The value trees of `base_values.cc` and `values.cc`.  A dictionary is a
    `std::map<std::wstring, Value*>`: its entries in ascending order of their keys. */
module JsonValue {
  import opened Wrappers
  import opened JsonLex

  datatype Value =
    | Null
    | Bool(b: bool)
    | Int32(i: int)
    | Int64(i: int)
    | Real(text: Text)      // a floating-point value, known by the text it was read from
    | Str(s: Text)
    | List(items: seq<Value>)
    | Dict(entries: seq<Entry>)

  datatype Entry = Entry(key: Text, value: Value)

  // std::wstring's operator<.
  predicate Less(a: Text, b: Text)
    decreases |a|
  {
    b != [] && (a == [] || a[0] < b[0] || (a[0] == b[0] && Less(a[1..], b[1..])))
  }

  lemma {:induction false} LessIrreflexive(a: Text)
    ensures !Less(a, a)
    decreases |a|
  {
    if a != [] {
      LessIrreflexive(a[1..]);
    }
  }

  lemma {:induction false} LessTransitive(a: Text, b: Text, c: Text)
    requires Less(a, b) && Less(b, c)
    ensures Less(a, c)
    decreases |a|
  {
    if a != [] && a[0] == b[0] == c[0] {
      LessTransitive(a[1..], b[1..], c[1..]);
    }
  }

  lemma {:induction false} LessTotal(a: Text, b: Text)
    ensures Less(a, b) || a == b || Less(b, a)
    decreases |a|
  {
    if a != [] && b != [] && a[0] == b[0] {
      LessTotal(a[1..], b[1..]);
      assert a == [a[0]] + a[1..] && b == [b[0]] + b[1..];
    }
  }

  // It is the lexicographic order: at the first difference the smaller code or the end of
  // the text decides.
  lemma {:induction false} LessIff(a: Text, b: Text)
    ensures Less(a, b) <==> exists k :: 0 <= k <= |a| && k < |b| && a[..k] == b[..k] && (k == |a| || a[k] < b[k])
    decreases |a|
  {
    if a != [] && b != [] && a[0] == b[0] {
      LessIff(a[1..], b[1..]);
      if k :| 0 <= k <= |a[1..]| && k < |b[1..]| && a[1..][..k] == b[1..][..k] && (k == |a[1..]| || a[1..][k] < b[1..][k]) {
        assert a[..k + 1] == [a[0]] + a[1..][..k] && b[..k + 1] == [b[0]] + b[1..][..k];
      }
      if k :| 0 <= k <= |a| && k < |b| && a[..k] == b[..k] && (k == |a| || a[k] < b[k]) {
        assert a[1..][..k - 1] == a[..k][1..] && b[1..][..k - 1] == b[..k][1..];
      }
    } else if a == [] || (b != [] && a[0] < b[0]) {
      assert a[..0] == b[..0];
    } else if k :| 0 <= k <= |a| && k < |b| && a[..k] == b[..k] && (k == |a| || a[k] < b[k]) {
      assert k > 0 ==> a[..k][0] == b[..k][0];
    }
  }

  // ---------- std::map ----------

  ghost predicate Ascending(es: seq<Entry>) {
    forall i, j :: 0 <= i < j < |es| ==> Less(es[i].key, es[j].key)
  }

  function Find(es: seq<Entry>, k: Text): Option<Value> {
    if es == [] then None
    else if es[0].key == k then Some(es[0].value)
    else Find(es[1..], k)
  }

  // SetWithoutPathExpansion.
  function Put(es: seq<Entry>, k: Text, v: Value): seq<Entry> {
    if es == [] || Less(k, es[0].key) then [Entry(k, v)] + es
    else if es[0].key == k then [Entry(k, v)] + es[1..]
    else [es[0]] + Put(es[1..], k, v)
  }

  // RemoveWithoutPathExpansion.
  function Erase(es: seq<Entry>, k: Text): seq<Entry> {
    if es == [] then []
    else if es[0].key == k then es[1..]
    else [es[0]] + Erase(es[1..], k)
  }

  lemma {:induction false} FindIn(es: seq<Entry>, k: Text)
    ensures Find(es, k).None? <==> forall e :: e in es ==> e.key != k
    ensures Find(es, k).Some? ==> Entry(k, Find(es, k).value) in es
  {
    if es != [] {
      assert es == [es[0]] + es[1..];
      FindIn(es[1..], k);
      if es[0].key == k {
        assert es[0] in es && es[0] == Entry(k, es[0].value);
      }
    }
  }

  lemma {:induction false} PutMembers(es: seq<Entry>, k: Text, v: Value)
    ensures forall e :: e in Put(es, k, v) ==> e in es || e == Entry(k, v)
  {
    if es != [] {
      assert es == [es[0]] + es[1..];
      PutMembers(es[1..], k, v);
    }
  }

  lemma AscendingTail(es: seq<Entry>)
    requires Ascending(es) && es != []
    ensures Ascending(es[1..])
    ensures forall e :: e in es[1..] ==> Less(es[0].key, e.key)
  {
  }

  lemma AscendingCons(e: Entry, es: seq<Entry>)
    requires Ascending(es) && forall x :: x in es ==> Less(e.key, x.key)
    ensures Ascending([e] + es)
  {
    forall i, j | 0 <= i < j < |[e] + es|
      ensures Less(([e] + es)[i].key, ([e] + es)[j].key)
    {
      assert ([e] + es)[j] == es[j - 1] && es[j - 1] in es;
    }
  }

  lemma {:induction false} PutAscending(es: seq<Entry>, k: Text, v: Value)
    requires Ascending(es)
    ensures Ascending(Put(es, k, v))
  {
    if es != [] {
      hide Ascending;
      AscendingTail(es);
      if Less(k, es[0].key) {
        forall x | x in es
          ensures Less(k, x.key)
        {
          if x != es[0] {
            assert x in es[1..];
            LessTransitive(k, es[0].key, x.key);
          }
        }
        AscendingCons(Entry(k, v), es);
      } else if es[0].key == k {
        AscendingCons(Entry(k, v), es[1..]);
      } else {
        LessTotal(k, es[0].key);
        PutMembers(es[1..], k, v);
        PutAscending(es[1..], k, v);
        AscendingCons(es[0], Put(es[1..], k, v));
      }
    }
  }

  // A key above all others goes to the end.
  lemma {:induction false} PutLast(es: seq<Entry>, k: Text, v: Value)
    requires forall e :: e in es ==> Less(e.key, k)
    ensures Put(es, k, v) == es + [Entry(k, v)]
  {
    if es != [] {
      assert es[0] in es && forall e :: e in es[1..] ==> e in es;
      LessAsymmetric(es[0].key, k);
      PutLast(es[1..], k, v);
      assert [es[0]] + (es[1..] + [Entry(k, v)]) == es + [Entry(k, v)];
    }
  }

  lemma LessAsymmetric(a: Text, b: Text)
    requires Less(a, b)
    ensures a != b && !Less(b, a)
  {
    LessIrreflexive(a);
    if Less(b, a) {
      LessTransitive(a, b, a);
    }
  }
}
