/** The leniency of `BuildValue`: with trailing commas allowed, a comma in front of the
    closing bracket of a non-empty container does not change the tree. */
module JsonCommas {
  import opened Wrappers
  import opened JsonLex
  import opened JsonLayout
  import opened JsonValue
  import opened JsonGrammar

  // `us` is `ts` with a comma inserted in front of token k.
  ghost predicate CommaInserted(ts: seq<Tok>, us: seq<Tok>, k: nat) {
    && k < |ts| && |us| == |ts| + 1 && us[k] == TComma
    && (forall m :: 0 <= m < k ==> us[m] == ts[m])
    && (forall m :: k <= m < |ts| ==> us[m + 1] == ts[m])
  }

  // Token k closes a container that is not empty and has no trailing comma yet.
  predicate ClosesItems(ts: seq<Tok>, k: nat) {
    && 0 < k < |ts| && (ts[k].TRBracket? || ts[k].TRBrace?)
    && !(ts[k - 1].TLBracket? || ts[k - 1].TLBrace? || ts[k - 1].TComma?)
  }

  // A result with its position moved behind the comma.
  function Moved(r: Option<Parsed>, k: nat): Option<Parsed> {
    match r
    case None => None
    case Some(p) => if p.next <= k then r else Some(Parsed(p.v, p.next + 1))
  }

  // ---------- behind the comma everything is shifted by one ----------

  lemma Shifted(ts: seq<Tok>, us: seq<Tok>, k: nat, i: nat)
    requires CommaInserted(ts, us, k) && k <= i <= |ts|
    ensures |us| == |ts| + 1
    ensures i < |ts| ==> us[i + 1] == ts[i]
    ensures i + 1 < |ts| ==> us[i + 2] == ts[i + 1]
  {
  }

  lemma {:induction false} ShiftValue(cfg: Config, ts: seq<Tok>, us: seq<Tok>, k: nat, i: nat, d: int)
    requires CommaInserted(ts, us, k) && k <= i <= |ts|
    ensures BuildValue(cfg, us, i + 1, d, false) == Moved(BuildValue(cfg, ts, i, d, false), k)
    decreases |ts| - i, 0
  {
    hide BuildList, BuildDict, CommaInserted, DecodeNumber, Decode;
    Shifted(ts, us, k, i);
    if i < |ts| && ts[i].TLBracket? {
      ShiftList(cfg, ts, us, k, i + 1, d + 1, []);
    } else if i < |ts| && ts[i].TLBrace? {
      ShiftDict(cfg, ts, us, k, i + 1, d + 1, []);
    }
  }

  function MovedItem(r: Option<Item>, k: nat): Option<Item> {
    match r
    case None => None
    case Some(x) => if x.next <= k then r else Some(x.(next := x.next + 1))
  }

  lemma ShiftAfter(cfg: Config, ts: seq<Tok>, us: seq<Tok>, k: nat, j: nat, close: Tok, key: Text, v: Value)
    requires CommaInserted(ts, us, k) && k <= j <= |ts|
    ensures AfterItem(cfg, us, j + 1, close, key, v) == MovedItem(AfterItem(cfg, ts, j, close, key, v), k)
  {
    Shifted(ts, us, k, j);
    hide CommaInserted;
  }

  lemma {:induction false} ShiftItem(cfg: Config, ts: seq<Tok>, us: seq<Tok>, k: nat, i: nat, d: int)
    requires CommaInserted(ts, us, k) && k <= i <= |ts|
    ensures ItemAt(cfg, us, i + 1, d) == MovedItem(ItemAt(cfg, ts, i, d), k)
    decreases |ts| - i, 1
  {
    Shifted(ts, us, k, i);
    hide BuildValue, CommaInserted, AfterItem;
    ShiftValue(cfg, ts, us, k, i, d);
    var b := BuildValue(cfg, ts, i, d, false);
    if b.Some? {
      ShiftAfter(cfg, ts, us, k, b.value.next, TRBracket, [], b.value.v);
    }
  }

  lemma {:induction false} ShiftEntry(cfg: Config, ts: seq<Tok>, us: seq<Tok>, k: nat, i: nat, d: int)
    requires CommaInserted(ts, us, k) && k <= i <= |ts|
    ensures EntryAt(cfg, us, i + 1, d) == MovedItem(EntryAt(cfg, ts, i, d), k)
    decreases |ts| - i, 1
  {
    Shifted(ts, us, k, i);
    assert KeyAt(us, i + 1) == KeyAt(ts, i);
    hide BuildValue, CommaInserted, AfterItem, KeyAt;
    if KeyAt(ts, i).Some? {
      ShiftValue(cfg, ts, us, k, i + 2, d);
      var b := BuildValue(cfg, ts, i + 2, d, false);
      if b.Some? {
        ShiftAfter(cfg, ts, us, k, b.value.next, TRBrace, KeyAt(ts, i).value, b.value.v);
      }
    }
  }

  lemma {:induction false} ShiftList(cfg: Config, ts: seq<Tok>, us: seq<Tok>, k: nat, i: nat, d: int, acc: seq<Value>)
    requires CommaInserted(ts, us, k) && k <= i <= |ts|
    ensures BuildList(cfg, us, i + 1, d, acc) == Moved(BuildList(cfg, ts, i, d, acc), k)
    decreases |ts| - i, 2
  {
    Shifted(ts, us, k, i);
    hide CommaInserted, ItemAt;
    ShiftItem(cfg, ts, us, k, i, d);
    var x := ItemAt(cfg, ts, i, d);
    if x.Some? && !x.value.last {
      ShiftList(cfg, ts, us, k, x.value.next, d, acc + [x.value.v]);
    }
  }

  lemma {:induction false} ShiftDict(cfg: Config, ts: seq<Tok>, us: seq<Tok>, k: nat, i: nat, d: int, acc: seq<Entry>)
    requires CommaInserted(ts, us, k) && k <= i <= |ts|
    ensures BuildDict(cfg, us, i + 1, d, acc) == Moved(BuildDict(cfg, ts, i, d, acc), k)
    decreases |ts| - i, 2
  {
    Shifted(ts, us, k, i);
    hide CommaInserted, EntryAt, Put;
    ShiftEntry(cfg, ts, us, k, i, d);
    var x := EntryAt(cfg, ts, i, d);
    if x.Some? && !x.value.last {
      ShiftDict(cfg, ts, us, k, x.value.next, d, Put(acc, x.value.key, x.value.v));
    }
  }

  // ---------- in front of the comma ----------

  // Where the array or object loop stands: behind an opening bracket or a comma.
  predicate LoopAt(ts: seq<Tok>, i: nat) {
    0 < i <= |ts| && (ts[i - 1].TLBracket? || ts[i - 1].TLBrace? || ts[i - 1].TComma?)
  }

  // The comma changes neither the tree nor whether there is one.
  lemma {:induction false} KeepValue(cfg: Config, ts: seq<Tok>, us: seq<Tok>, k: nat, i: nat, d: int, isRoot: bool)
    requires CommaInserted(ts, us, k) && ClosesItems(ts, k) && cfg.trailingComma && i <= k
    ensures BuildValue(cfg, us, i, d, isRoot) == Moved(BuildValue(cfg, ts, i, d, isRoot), k)
    decreases |ts| - i, 0
  {
    hide BuildList, BuildDict, CommaInserted, DecodeNumber, Decode;
    InFront(ts, us, k, i);
    if i < k && ts[i].TLBracket? {
      KeepList(cfg, ts, us, k, i + 1, d + 1, []);
    } else if i < k && ts[i].TLBrace? {
      KeepDict(cfg, ts, us, k, i + 1, d + 1, []);
    }
  }

  lemma InFront(ts: seq<Tok>, us: seq<Tok>, k: nat, i: nat)
    requires CommaInserted(ts, us, k) && ClosesItems(ts, k) && i <= k
    ensures |us| == |ts| + 1 && us[i] == (if i < k then ts[i] else TComma) && us[k + 1] == ts[k]
  {
  }

  // The loops go on in the same way in front of the comma; at the comma they end by
  // way of the trailing comma instead of the bare bracket.  Only when the bracket does
  // not match the container does the comma let the loop go on, to fail at the bracket.
  lemma KeepAfter(cfg: Config, ts: seq<Tok>, us: seq<Tok>, k: nat, j: nat, close: Tok, key: Text, v: Value)
    requires CommaInserted(ts, us, k) && ClosesItems(ts, k) && cfg.trailingComma && j <= |ts|
    requires close == TRBracket || close == TRBrace
    ensures AfterItem(cfg, us, if j <= k then j else j + 1, close, key, v)
         == if j == k && ts[k] != close then Some(Item(key, v, false, k + 1))
            else MovedItem(AfterItem(cfg, ts, j, close, key, v), k)
    ensures var x := AfterItem(cfg, ts, j, close, key, v); x.Some? && !x.value.last && x.value.next <= k ==> LoopAt(ts, x.value.next)
    ensures j == k && ts[k] != close ==> AfterItem(cfg, ts, j, close, key, v).None?
  {
    if j > k {
      ShiftAfter(cfg, ts, us, k, j, close, key, v);
    }
    assert j < k ==> us[j] == ts[j] && (ts[j] == TComma ==> j + 1 < k && us[j + 1] == ts[j + 1]);
    assert us[k + 1] == ts[k];
    hide CommaInserted;
  }

  // An item, or the round that the comma adds in front of a bracket that does not match.
  ghost predicate KeptItem(r: Option<Item>, q: Option<Item>, ts: seq<Tok>, k: nat, close: Tok) {
    || q == MovedItem(r, k)
    || (r.None? && q.Some? && !q.value.last && q.value.next == k + 1 && k < |ts| && ts[k] != close)
  }

  lemma {:induction false} KeepItem(cfg: Config, ts: seq<Tok>, us: seq<Tok>, k: nat, i: nat, d: int)
    requires CommaInserted(ts, us, k) && ClosesItems(ts, k) && cfg.trailingComma && i <= k
    ensures |us| == |ts| + 1 && KeptItem(ItemAt(cfg, ts, i, d), ItemAt(cfg, us, i, d), ts, k, TRBracket)
    ensures var x := ItemAt(cfg, ts, i, d); x.Some? && !x.value.last && x.value.next <= k ==> LoopAt(ts, x.value.next)
    decreases |ts| - i, 1
  {
    hide BuildValue, CommaInserted, AfterItem, LoopAt;
    InFront(ts, us, k, i);
    KeepValue(cfg, ts, us, k, i, d, false);
    var b := BuildValue(cfg, ts, i, d, false);
    if b.Some? {
      KeepAfter(cfg, ts, us, k, b.value.next, TRBracket, [], b.value.v);
    }
  }

  lemma {:induction false} KeepEntry(cfg: Config, ts: seq<Tok>, us: seq<Tok>, k: nat, i: nat, d: int)
    requires CommaInserted(ts, us, k) && ClosesItems(ts, k) && cfg.trailingComma && i <= k
    ensures |us| == |ts| + 1 && KeptItem(EntryAt(cfg, ts, i, d), EntryAt(cfg, us, i, d), ts, k, TRBrace)
    ensures var x := EntryAt(cfg, ts, i, d); x.Some? && !x.value.last && x.value.next <= k ==> LoopAt(ts, x.value.next)
    decreases |ts| - i, 1
  {
    hide BuildValue, CommaInserted, AfterItem, LoopAt, KeyAt;
    InFront(ts, us, k, i);
    KeyKept(ts, us, k, i);
    var key := KeyAt(ts, i);
    if key.Some? {
      KeepValue(cfg, ts, us, k, i + 2, d, false);
      var b := BuildValue(cfg, ts, i + 2, d, false);
      if b.Some? {
        KeepAfter(cfg, ts, us, k, b.value.next, TRBrace, key.value, b.value.v);
      }
    }
  }

  lemma KeyKept(ts: seq<Tok>, us: seq<Tok>, k: nat, i: nat)
    requires CommaInserted(ts, us, k) && ClosesItems(ts, k) && i <= k
    ensures KeyAt(us, i) == KeyAt(ts, i) && (KeyAt(ts, i).Some? ==> i + 2 <= k)
  {
    InFront(ts, us, k, i);
    if i < k {
      InFront(ts, us, k, i + 1);
    }
    hide CommaInserted, Decode;
  }

  // In front of a bracket that does not match, no round of a loop succeeds.
  lemma NoItemAtBracket(cfg: Config, us: seq<Tok>, i: nat, d: int, acc: seq<Value>, es: seq<Entry>)
    requires i < |us| && (us[i].TRBracket? || us[i].TRBrace?)
    ensures !us[i].TRBracket? ==> BuildList(cfg, us, i, d, acc).None?
    ensures !us[i].TRBrace? ==> BuildDict(cfg, us, i, d, es).None?
  {
    hide AfterItem, DecodeNumber, Decode;
    assert BuildValue(cfg, us, i, d, false).None?;
    assert KeyAt(us, i).None?;
  }

  lemma {:induction false} KeepList(cfg: Config, ts: seq<Tok>, us: seq<Tok>, k: nat, i: nat, d: int, acc: seq<Value>)
    requires CommaInserted(ts, us, k) && ClosesItems(ts, k) && cfg.trailingComma && i <= k && LoopAt(ts, i)
    ensures BuildList(cfg, us, i, d, acc) == Moved(BuildList(cfg, ts, i, d, acc), k)
    decreases |ts| - i, 2
  {
    hide CommaInserted, ItemAt;
    InFront(ts, us, k, i);
    if !ts[i].TRBracket? {
      KeepItem(cfg, ts, us, k, i, d);
      var x, y := ItemAt(cfg, ts, i, d), ItemAt(cfg, us, i, d);
      if x.None? && y.Some? {
        NoItemAtBracket(cfg, us, k + 1, d, acc + [y.value.v], []);
      } else if x.Some? && !x.value.last {
        if x.value.next <= k {
          KeepList(cfg, ts, us, k, x.value.next, d, acc + [x.value.v]);
        } else {
          ShiftList(cfg, ts, us, k, x.value.next, d, acc + [x.value.v]);
        }
      }
    }
  }

  lemma {:induction false} KeepDict(cfg: Config, ts: seq<Tok>, us: seq<Tok>, k: nat, i: nat, d: int, acc: seq<Entry>)
    requires CommaInserted(ts, us, k) && ClosesItems(ts, k) && cfg.trailingComma && i <= k && LoopAt(ts, i)
    ensures BuildDict(cfg, us, i, d, acc) == Moved(BuildDict(cfg, ts, i, d, acc), k)
    decreases |ts| - i, 2
  {
    hide CommaInserted, EntryAt, Put;
    InFront(ts, us, k, i);
    if !ts[i].TRBrace? {
      KeepEntry(cfg, ts, us, k, i, d);
      var x, y := EntryAt(cfg, ts, i, d), EntryAt(cfg, us, i, d);
      if x.None? && y.Some? {
        NoItemAtBracket(cfg, us, k + 1, d, [], Put(acc, y.value.key, y.value.v));
      } else if x.Some? && !x.value.last {
        if x.value.next <= k {
          KeepDict(cfg, ts, us, k, x.value.next, d, Put(acc, x.value.key, x.value.v));
        } else {
          ShiftDict(cfg, ts, us, k, x.value.next, d, Put(acc, x.value.key, x.value.v));
        }
      }
    }
  }

  lemma InsertedInFront(ts: seq<Tok>, us: seq<Tok>, k: nat, rest: seq<Tok>)
    requires CommaInserted(ts, us, k) && ClosesItems(ts, k)
    ensures CommaInserted(ts + rest, us + rest, k) && ClosesItems(ts + rest, k)
  {
  }

  // A text and the same text with other white space and comments and one more
  // trailing comma make the same tree, or are both refused; behind the part that is
  // laid out anew both may go on in any way that has the same tokens.
  lemma TrailingCommaKeepsTree(cfg: Config, ps: seq<Piece>, tail: Text, qs: seq<Piece>, tail': Text, k: nat, d: int, isRoot: bool)
    requires WellLaid(ps, tail) && WellLaid(qs, tail') && Toks(tail) == Toks(tail') && cfg.trailingComma
    requires CommaInserted(TokensOf(ps), TokensOf(qs), k) && ClosesItems(TokensOf(ps), k)
    ensures var r := BuildValue(cfg, Toks(TextOf(ps, tail)), 0, d, isRoot);
            var q := BuildValue(cfg, Toks(TextOf(qs, tail')), 0, d, isRoot);
            (r.Some? <==> q.Some?) && (r.Some? ==> q.value.v == r.value.v)
  {
    hide Toks, TextOf, WellLaid, TokensOf, BuildValue, CommaInserted, ClosesItems;
    LayoutToks(ps, tail);
    LayoutToks(qs, tail');
    InsertedInFront(TokensOf(ps), TokensOf(qs), k, Toks(tail));
    KeepValue(cfg, TokensOf(ps) + Toks(tail), TokensOf(qs) + Toks(tail'), k, 0, d, isRoot);
  }
}
