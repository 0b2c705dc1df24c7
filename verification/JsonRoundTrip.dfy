/** Printing then parsing is the identity: `BuildValue` on the tokens of the printed
    text makes the tree again, int32 values widened to int64, in either form; and it
    refuses exactly the trees deeper than the stack limit. */
module JsonRoundTrip {
  import opened Wrappers
  import opened JsonLex
  import opened JsonLayout
  import opened JsonValue
  import opened JsonGrammar
  import opened JsonPrint

  // ---------- reading a printed text lexeme by lexeme ----------

  lemma SkipFiller(ts: seq<Tok>, i: nat, f: Text, s: Text)
    requires At(ts, i, f + s) && IsFiller(f)
    ensures At(ts, i, s)
  {
    hide WsLen, IsFiller, Toks;
    FillerSkips(f, s);
    SameStart(f + s, s);
  }

  // A text has the tokens of what is left behind its white space.
  lemma SameStart(a: Text, b: Text)
    requires a[WsLen(a)..] == b[WsLen(b)..]
    ensures Toks(a) == Toks(b)
  {
    hide WsLen, LexHere;
  }

  // One character of white space, printed only in the pretty form.
  lemma SkipPretty(ts: seq<Tok>, i: nat, pretty: bool, c: Code, s: Text)
    requires At(ts, i, Pretty(pretty, [c]) + s) && IsSpace(c)
    ensures At(ts, i, s)
  {
    assert IsFiller([c]);
    SkipFiller(ts, i, Pretty(pretty, [c]), s);
    hide At;
  }

  lemma NextLexeme(ts: seq<Tok>, i: nat, x: Text, tok: Tok, s: Text)
    requires At(ts, i, x + s) && IsLexeme(x, tok) && (tok.TNum? ==> Stops(s))
    ensures i < |ts| && ts[i] == tok && At(ts, i + 1, s)
  {
    hide Toks, Stops, IsNumber, NumLen;
    if tok.TNum? {
      NumberLexes(x, s);
    }
    LexemeToks([], x, tok, s);
    assert [] + (x + s) == x + s;
    assert ts[i..] == [ts[i]] + ts[i + 1..];
    assert ([tok] + Toks(s))[1..] == Toks(s);
  }

  // ---------- what BuildValue does with a printed value ----------

  // BuildValue at i with stack depth d reads exactly the printed value and leaves the
  // tokens of r, unless the tree is too deep.
  ghost predicate Reads(cfg: Config, ts: seq<Tok>, i: nat, d: int, v: Value, r: Text)
    requires i <= |ts|
  {
    var b := BuildValue(cfg, ts, i, d, false);
    && i < |ts| && !ts[i].TRBracket?
    && if d + Height(v) <= STACK_LIMIT then b.Some? && b.value.v == Widen(v) && At(ts, b.value.next, r) else b.None?
  }

  lemma ReadsValue(cfg: Config, ts: seq<Tok>, i: nat, d: int, v: Value, r: Text) returns (p: Parsed)
    requires i <= |ts| && Reads(cfg, ts, i, d, v, r) && d + Height(v) <= STACK_LIMIT
    ensures i < |ts| && !ts[i].TRBracket?
    ensures BuildValue(cfg, ts, i, d, false) == Some(p) && p.v == Widen(v) && At(ts, p.next, r)
  {
    p := BuildValue(cfg, ts, i, d, false).value;
    hide BuildValue, Height, Widen, At;
  }

  lemma NumberReads(cfg: Config, ts: seq<Tok>, i: nat, d: int, n: int, r: Text)
    requires INT64_MIN <= n <= INT64_MAX && Stops(r) && At(ts, i, IntText(n) + r)
    ensures BuildValue(cfg, ts, i, d, false) == if d < STACK_LIMIT then Some(Parsed(Int64(n), i + 1)) else None
    ensures i < |ts| && ts[i].TNum? && At(ts, i + 1, r)
  {
    IntTextReads(n);
    NextLexeme(ts, i, IntText(n), TNum(IntText(n)), r);
    hide ToInt64, IntText, At, IsNumber, Stops;
  }

  lemma QuotedReads(ts: seq<Tok>, i: nat, s: Text, r: Text)
    requires At(ts, i, Quoted(s) + r)
    ensures i < |ts| && ts[i] == TStr(Escape(s)) && Decode(Escape(s)) == Some(s) && At(ts, i + 1, r)
  {
    EscapeRoundTrip(s);
    assert IsLexeme(Quoted(s), TStr(Escape(s)));
    hide *;
    NextLexeme(ts, i, Quoted(s), TStr(Escape(s)), r);
  }

  lemma StringReads(cfg: Config, ts: seq<Tok>, i: nat, d: int, s: Text, r: Text)
    requires At(ts, i, Quoted(s) + r)
    ensures i < |ts| && ts[i] == TStr(Escape(s))
    ensures BuildValue(cfg, ts, i, d, false) == if d < STACK_LIMIT then Some(Parsed(Str(s), i + 1)) else None
    ensures At(ts, i + 1, r)
  {
    QuotedReads(ts, i, s, r);
    hide At, Escape, Decode;
  }

  lemma ScalarReads(cfg: Config, ts: seq<Tok>, i: nat, d: int, v: Value, depth: nat, pretty: bool, r: Text)
    requires Printable(v) && !v.List? && !v.Dict?
    requires Stops(r) && At(ts, i, Print(v, depth, pretty) + r)
    ensures Reads(cfg, ts, i, d, v, r)
  {
    match v {
      case Null => NextLexeme(ts, i, NULL_WORD, TNull, r);
      case Bool(b) => NextLexeme(ts, i, if b then TRUE_WORD else FALSE_WORD, if b then TTrue else TFalse, r);
      case Int32(n) => NumberReads(cfg, ts, i, d, n, r); hide BuildValue;
      case Int64(n) => NumberReads(cfg, ts, i, d, n, r); hide BuildValue;
      case Str(s) => StringReads(cfg, ts, i, d, s, r); hide BuildValue;
    }
    hide At, Stops, Escape, IntText, Quoted;
  }

  // ---------- the loops, one round at a time ----------

  lemma ListMore(cfg: Config, ts: seq<Tok>, i: nat, d: int, acc: seq<Value>, p: Parsed)
    requires i < |ts| && !ts[i].TRBracket? && BuildValue(cfg, ts, i, d, false) == Some(p)
    requires p.next + 1 < |ts| && ts[p.next].TComma? && !ts[p.next + 1].TRBracket?
    ensures BuildList(cfg, ts, i, d, acc) == BuildList(cfg, ts, p.next + 1, d, acc + [p.v])
  {
    hide BuildValue;
  }

  lemma ListLast(cfg: Config, ts: seq<Tok>, i: nat, d: int, acc: seq<Value>, p: Parsed)
    requires i < |ts| && !ts[i].TRBracket? && BuildValue(cfg, ts, i, d, false) == Some(p)
    requires p.next < |ts| && ts[p.next].TRBracket?
    ensures BuildList(cfg, ts, i, d, acc) == Some(Parsed(List(acc + [p.v]), p.next + 1))
  {
    hide BuildValue;
  }

  lemma ListFails(cfg: Config, ts: seq<Tok>, i: nat, d: int, acc: seq<Value>)
    requires i < |ts| && !ts[i].TRBracket? && BuildValue(cfg, ts, i, d, false).None?
    ensures BuildList(cfg, ts, i, d, acc).None?
  {
    hide BuildValue;
  }

  lemma DictMore(cfg: Config, ts: seq<Tok>, i: nat, d: int, acc: seq<Entry>, key: Text, p: Parsed)
    requires KeyAt(ts, i) == Some(key) && BuildValue(cfg, ts, i + 2, d, false) == Some(p)
    requires p.next + 1 < |ts| && ts[p.next].TComma? && !ts[p.next + 1].TRBrace?
    ensures BuildDict(cfg, ts, i, d, acc) == BuildDict(cfg, ts, p.next + 1, d, Put(acc, key, p.v))
  {
    hide BuildValue, Put, Decode;
  }

  lemma DictLast(cfg: Config, ts: seq<Tok>, i: nat, d: int, acc: seq<Entry>, key: Text, p: Parsed)
    requires KeyAt(ts, i) == Some(key) && BuildValue(cfg, ts, i + 2, d, false) == Some(p)
    requires p.next < |ts| && ts[p.next].TRBrace?
    ensures BuildDict(cfg, ts, i, d, acc) == Some(Parsed(Dict(Put(acc, key, p.v)), p.next + 1))
  {
    hide BuildValue, Put, Decode;
  }

  lemma DictFails(cfg: Config, ts: seq<Tok>, i: nat, d: int, acc: seq<Entry>, key: Text)
    requires KeyAt(ts, i) == Some(key) && BuildValue(cfg, ts, i + 2, d, false).None?
    ensures BuildDict(cfg, ts, i, d, acc).None?
  {
    hide BuildValue, Put, Decode;
  }

  // ---------- arrays ----------

  lemma {:induction false} HeightCons(items: seq<Value>)
    requires items != []
    ensures HeightItems(items) == Max(Height(items[0]), HeightItems(items[1..]))
    decreases |items|
  {
    if |items| > 1 {
      var a := items[..|items| - 1];
      HeightCons(a);
      assert items[1..][..|items[1..]| - 1] == a[1..];
    }
  }

  // The array loop reads the items still to come and the bracket behind them.
  ghost predicate ListReads(cfg: Config, ts: seq<Tok>, i: nat, d: int, items: seq<Value>, acc: seq<Value>, r: Text)
    requires i <= |ts|
  {
    var b := BuildList(cfg, ts, i, d, acc);
    && (items != [] ==> i < |ts| && !ts[i].TRBracket?)
    && if d + HeightItems(items) <= STACK_LIMIT
      then b.Some? && b.value.v == List(acc + WidenItems(items)) && At(ts, b.value.next, r)
      else b.None?
  }

  // The text behind the last item of an array.
  function ListEnd(pretty: bool, r: Text): Text {
    Pretty(pretty, [SPACE]) + ([RBRACKET] + r)
  }

  lemma ReadListEnd(ts: seq<Tok>, i: nat, pretty: bool, r: Text)
    ensures Stops(ListEnd(pretty, r))
    ensures At(ts, i, ListEnd(pretty, r)) ==> i < |ts| && ts[i] == TRBracket && At(ts, i + 1, r)
  {
    if At(ts, i, ListEnd(pretty, r)) {
      SkipPretty(ts, i, pretty, SPACE, [RBRACKET] + r);
      NextLexeme(ts, i, [RBRACKET], TRBracket, r);
    }
  }

  // The text between the first item and what follows it.
  function ItemsTail(items: seq<Value>, depth: nat, pretty: bool, s: Text): Text
    requires items != [] && forall x :: x in items ==> Printable(x)
  {
    if |items| == 1 then s else [COMMA] + (Pretty(pretty, [SPACE]) + (PrintItems(items[1..], depth, pretty) + s))
  }

  lemma {:induction false} PrintItemsCons(items: seq<Value>, depth: nat, pretty: bool, s: Text)
    requires items != [] && forall x :: x in items ==> Printable(x)
    ensures PrintItems(items, depth, pretty) + s == Print(items[0], depth, pretty) + ItemsTail(items, depth, pretty, s)
    ensures Stops(s) ==> Stops(ItemsTail(items, depth, pretty, s))
    ensures |items| == 1 ==> ItemsTail(items, depth, pretty, s) == s
  {
    hide Print, Printable;
  }

  lemma ItemsTailStep(ts: seq<Tok>, j: nat, items: seq<Value>, depth: nat, pretty: bool, s: Text)
    requires |items| > 1 && forall x :: x in items ==> Printable(x)
    requires At(ts, j, ItemsTail(items, depth, pretty, s))
    ensures j < |ts| && ts[j] == TComma && At(ts, j + 1, PrintItems(items[1..], depth, pretty) + s)
  {
    var t := PrintItems(items[1..], depth, pretty) + s;
    NextLexeme(ts, j, [COMMA], TComma, Pretty(pretty, [SPACE]) + t);
    SkipPretty(ts, j + 1, pretty, SPACE, t);
  }

  lemma Snoc<T>(acc: seq<T>, x: T, ys: seq<T>)
    ensures (acc + [x]) + ys == acc + ([x] + ys)
  {
  }

  // One round of the array loop.
  lemma ItemStep(cfg: Config, ts: seq<Tok>, i: nat, d: int, items: seq<Value>, acc: seq<Value>, r: Text, p: Parsed)
    requires i < |ts| && |items| > 1 && !ts[i].TRBracket?
    requires d + Height(items[0]) <= STACK_LIMIT
    requires BuildValue(cfg, ts, i, d, false) == Some(p) && p.v == Widen(items[0])
    requires p.next < |ts| && ts[p.next] == TComma
    requires ListReads(cfg, ts, p.next + 1, d, items[1..], acc + [p.v], r)
    ensures ListReads(cfg, ts, i, d, items, acc, r)
  {
    HeightCons(items);
    ListMore(cfg, ts, i, d, acc, p);
    Snoc(acc, p.v, WidenItems(items[1..]));
    hide BuildValue, BuildList, At, HeightItems, Height, Widen;
  }

  // An empty container prints nothing between its brackets.
  lemma NothingPrinted(depth: nat, pretty: bool, s: Text)
    ensures PrintItems([], depth, pretty) + s == s && PrintEntries([], depth, pretty) + s == s
    ensures HeightItems([]) == 0 && HeightEntries([]) == 0 && WidenItems([]) == [] && WidenEntries([]) == []
  {
  }

  lemma NoItems(cfg: Config, ts: seq<Tok>, i: nat, d: int, depth: nat, pretty: bool, r: Text)
    requires d <= STACK_LIMIT && At(ts, i, PrintItems([], depth, pretty) + ListEnd(pretty, r))
    ensures i <= |ts| && ListReads(cfg, ts, i, d, [], [], r)
  {
    hide At, ListEnd, ItemAt, PrintItems, HeightItems, WidenItems;
    NothingPrinted(depth, pretty, ListEnd(pretty, r));
    ReadListEnd(ts, i, pretty, r);
  }

  // The array loop at its last item, or at one that is too deep.
  lemma ItemEnd(cfg: Config, ts: seq<Tok>, i: nat, d: int, items: seq<Value>, acc: seq<Value>,
                                   t: Text, pretty: bool, r: Text)
    requires i <= |ts| && items != [] && Reads(cfg, ts, i, d, items[0], t)
    requires d + Height(items[0]) > STACK_LIMIT || |items| == 1
    requires |items| == 1 ==> t == ListEnd(pretty, r)
    ensures ListReads(cfg, ts, i, d, items, acc, r)
  {
    HeightCons(items);
    hide BuildList, At, Height, HeightItems, Widen, ListEnd;
    if d + Height(items[0]) > STACK_LIMIT {
      ListFails(cfg, ts, i, d, acc);
    } else {
      var p := BuildValue(cfg, ts, i, d, false).value;
      ReadListEnd(ts, p.next, pretty, r);
      ListLast(cfg, ts, i, d, acc, p);
      HeightOne(items);
    }
    hide BuildValue;
  }

  lemma {:induction false} ItemsRead(cfg: Config, ts: seq<Tok>, i: nat, d: int, items: seq<Value>, acc: seq<Value>,
                                     depth: nat, pretty: bool, r: Text)
    requires forall x :: x in items ==> Printable(x)
    requires d <= STACK_LIMIT && (items == [] ==> acc == [])
    requires At(ts, i, PrintItems(items, depth, pretty) + ListEnd(pretty, r))
    ensures ListReads(cfg, ts, i, d, items, acc, r)
    decreases items, 1
  {
    var s := ListEnd(pretty, r);
    assert i <= |ts|;
    if items == [] {
      NoItems(cfg, ts, i, d, depth, pretty, r);
    } else {
      var t := ItemsTail(items, depth, pretty, s);
      PrintItemsCons(items, depth, pretty, s);
      ReadListEnd(ts, i, pretty, r);
      hide *;
      ValueReads(cfg, ts, i, d, items[0], depth, pretty, t);
      if d + Height(items[0]) > STACK_LIMIT || |items| == 1 {
        ItemEnd(cfg, ts, i, d, items, acc, t, pretty, r);
      } else {
        ItemsReadMore(cfg, ts, i, d, items, acc, depth, pretty, r);
      }
    }
  }

  lemma {:induction false} ItemsReadMore(cfg: Config, ts: seq<Tok>, i: nat, d: int, items: seq<Value>, acc: seq<Value>,
                                         depth: nat, pretty: bool, r: Text)
    requires |items| > 1 && forall x :: x in items ==> Printable(x)
    requires d + Height(items[0]) <= STACK_LIMIT
    requires i <= |ts| && Reads(cfg, ts, i, d, items[0], ItemsTail(items, depth, pretty, ListEnd(pretty, r)))
    ensures ListReads(cfg, ts, i, d, items, acc, r)
    decreases items, 0
  {
    hide *;
    var s := ListEnd(pretty, r);
    var p := ReadsValue(cfg, ts, i, d, items[0], ItemsTail(items, depth, pretty, s));
    ItemsTailStep(ts, p.next, items, depth, pretty, s);
    ItemsRead(cfg, ts, p.next + 1, d, items[1..], acc + [p.v], depth, pretty, r);
    ItemStep(cfg, ts, i, d, items, acc, r, p);
  }

  lemma HeightOne(items: seq<Value>)
    requires |items| == 1
    ensures HeightItems(items) == Height(items[0]) && WidenItems(items) == [Widen(items[0])]
  {
  }

  // ---------- objects ----------

  // The object loop reads the entries still to come and the brace behind them.
  ghost predicate DictReads(cfg: Config, ts: seq<Tok>, i: nat, d: int, es: seq<Entry>, acc: seq<Entry>, r: Text)
    requires i <= |ts|
  {
    var b := BuildDict(cfg, ts, i, d, acc);
    && (es != [] ==> i < |ts| && ts[i].TStr?)
    && if d + HeightEntries(es) <= STACK_LIMIT
      then b.Some? && b.value.v == Dict(acc + WidenEntries(es)) && At(ts, b.value.next, r)
      else b.None?
  }

  // The text behind the last entry of an object.
  function DictEnd(depth: nat, pretty: bool, r: Text): Text {
    Pretty(pretty, [LF] + Indent(depth)) + ([RBRACE] + r)
  }

  lemma {:induction false} IndentIsFiller(depth: nat)
    ensures IsFiller(Indent(depth))
  {
    if depth > 0 {
      IndentIsFiller(depth - 1);
      var w := Indent(depth - 1);
      assert ([SPACE, SPACE, SPACE] + w)[1..] == [SPACE, SPACE] + w;
      assert ([SPACE, SPACE] + w)[1..] == [SPACE] + w;
      assert ([SPACE] + w)[1..] == w;
    }
  }

  lemma ReadDictEnd(ts: seq<Tok>, i: nat, depth: nat, pretty: bool, r: Text)
    ensures Stops(DictEnd(depth, pretty, r))
    ensures At(ts, i, DictEnd(depth, pretty, r)) ==> i < |ts| && ts[i] == TRBrace && At(ts, i + 1, r)
  {
    if At(ts, i, DictEnd(depth, pretty, r)) {
      IndentIsFiller(depth);
      assert ([LF] + Indent(depth))[1..] == Indent(depth);
      SkipFiller(ts, i, Pretty(pretty, [LF] + Indent(depth)), [RBRACE] + r);
      NextLexeme(ts, i, [RBRACE], TRBrace, r);
    }
  }

  function EntriesTail(es: seq<Entry>, depth: nat, pretty: bool, s: Text): Text
    requires es != [] && forall e :: e in es ==> Printable(e.value)
  {
    if |es| == 1 then s else [COMMA] + (Pretty(pretty, [LF]) + (PrintEntries(es[1..], depth, pretty) + s))
  }

  lemma {:induction false} PrintEntriesCons(es: seq<Entry>, depth: nat, pretty: bool, s: Text)
    requires es != [] && forall e :: e in es ==> Printable(e.value)
    ensures PrintEntries(es, depth, pretty) + s == PrintEntry(es[0], depth, pretty) + EntriesTail(es, depth, pretty, s)
    ensures Stops(s) ==> Stops(EntriesTail(es, depth, pretty, s))
    ensures |es| == 1 ==> EntriesTail(es, depth, pretty, s) == s
  {
    hide PrintEntry, Printable;
  }

  lemma EntriesTailStep(ts: seq<Tok>, j: nat, es: seq<Entry>, depth: nat, pretty: bool, s: Text)
    requires |es| > 1 && forall e :: e in es ==> Printable(e.value)
    requires At(ts, j, EntriesTail(es, depth, pretty, s))
    ensures j < |ts| && ts[j] == TComma && At(ts, j + 1, PrintEntries(es[1..], depth, pretty) + s)
  {
    var t := PrintEntries(es[1..], depth, pretty) + s;
    NextLexeme(ts, j, [COMMA], TComma, Pretty(pretty, [LF]) + t);
    SkipPretty(ts, j + 1, pretty, LF, t);
  }

  lemma PrintEntryParts(e: Entry, depth: nat, pretty: bool, s: Text)
    requires Printable(e.value)
    ensures PrintEntry(e, depth, pretty) + s == Pretty(pretty, Indent(depth + 1)) + (Quoted(e.key)
            + ([COLON] + (Pretty(pretty, [SPACE]) + (Print(e.value, depth + 1, pretty) + s))))
  {
    hide Quoted, Print, Printable, Indent;
  }

  // The key of an entry and its colon are read; the value comes next.
  lemma EntryKeyReads(ts: seq<Tok>, i: nat, e: Entry, depth: nat, pretty: bool, s: Text)
    requires Printable(e.value) && At(ts, i, PrintEntry(e, depth, pretty) + s)
    ensures KeyAt(ts, i) == Some(e.key) && At(ts, i + 2, Print(e.value, depth + 1, pretty) + s)
  {
    PrintEntryParts(e, depth, pretty, s);
    IndentIsFiller(depth + 1);
    assert IsFiller(Pretty(pretty, Indent(depth + 1)));
    hide *;
    KeyReads(ts, i, Pretty(pretty, Indent(depth + 1)), e.key, pretty, Print(e.value, depth + 1, pretty) + s);
  }

  lemma KeyReads(ts: seq<Tok>, i: nat, f: Text, key: Text, pretty: bool, v: Text)
    requires IsFiller(f) && At(ts, i, f + (Quoted(key) + ([COLON] + (Pretty(pretty, [SPACE]) + v))))
    ensures KeyAt(ts, i) == Some(key) && At(ts, i + 2, v)
  {
    var c := [COLON] + (Pretty(pretty, [SPACE]) + v);
    assert IsLexeme([COLON], TColon) && IsSpace(SPACE);
    hide At, IsFiller, Quoted, IsLexeme, Decode, Escape;
    SkipFiller(ts, i, f, Quoted(key) + c);
    QuotedReads(ts, i, key, c);
    NextLexeme(ts, i + 1, [COLON], TColon, Pretty(pretty, [SPACE]) + v);
    SkipPretty(ts, i + 2, pretty, SPACE, v);
  }

  lemma EntriesCons(es: seq<Entry>)
    requires es != []
    ensures HeightEntries(es) == Max(Height(es[0].value), HeightEntries(es[1..]))
    ensures WidenEntries(es) == [Entry(es[0].key, Widen(es[0].value))] + WidenEntries(es[1..])
    ensures |es| == 1 ==> HeightEntries(es) == Height(es[0].value)
    ensures |es| == 1 ==> WidenEntries(es) == [Entry(es[0].key, Widen(es[0].value))]
  {
  }

  lemma KeyInside(ts: seq<Tok>, i: nat, key: Text)
    requires KeyAt(ts, i) == Some(key)
    ensures i + 2 <= |ts| && ts[i].TStr?
  {
  }

  // Entries in ascending order, all behind the ones read so far.
  ghost predicate Behind(acc: seq<Entry>, es: seq<Entry>) {
    Ascending(es) && forall a, e :: a in acc && e in es ==> Less(a.key, e.key)
  }

  lemma PutFirst(acc: seq<Entry>, es: seq<Entry>, v: Value)
    requires Behind(acc, es) && es != []
    ensures Put(acc, es[0].key, v) == acc + [Entry(es[0].key, v)]
    ensures Behind(acc + [Entry(es[0].key, v)], es[1..])
  {
    AscendingTail(es);
    hide Ascending, Put, Less;
    PutLast(acc, es[0].key, v);
  }

  // One round of the object loop.
  lemma EntryStep(cfg: Config, ts: seq<Tok>, i: nat, d: int, es: seq<Entry>, acc: seq<Entry>, r: Text, p: Parsed)
    requires |es| > 1 && KeyAt(ts, i) == Some(es[0].key)
    requires d + Height(es[0].value) <= STACK_LIMIT
    requires BuildValue(cfg, ts, i + 2, d, false) == Some(p) && p.v == Widen(es[0].value)
    requires p.next < |ts| && ts[p.next] == TComma
    requires Put(acc, es[0].key, p.v) == acc + [Entry(es[0].key, p.v)]
    requires DictReads(cfg, ts, p.next + 1, d, es[1..], acc + [Entry(es[0].key, p.v)], r)
    ensures DictReads(cfg, ts, i, d, es, acc, r)
  {
    EntriesCons(es);
    assert ts[i].TStr?;
    hide BuildValue, BuildDict, At, Height, HeightEntries, Widen, WidenEntries, Put, KeyAt;
    var e := Entry(es[0].key, p.v);
    DictMore(cfg, ts, i, d, acc, es[0].key, p);
    Snoc(acc, e, WidenEntries(es[1..]));
  }

  lemma NoEntries(cfg: Config, ts: seq<Tok>, i: nat, d: int, depth: nat, pretty: bool, r: Text)
    requires d <= STACK_LIMIT && At(ts, i, PrintEntries([], depth, pretty) + DictEnd(depth, pretty, r))
    ensures i <= |ts| && DictReads(cfg, ts, i, d, [], [], r)
  {
    hide At, DictEnd, EntryAt, PrintEntries, HeightEntries, WidenEntries;
    NothingPrinted(depth, pretty, DictEnd(depth, pretty, r));
    ReadDictEnd(ts, i, depth, pretty, r);
  }

  // The object loop at its last entry, or at one that is too deep.
  lemma EntryEnd(cfg: Config, ts: seq<Tok>, i: nat, d: int, es: seq<Entry>, acc: seq<Entry>,
                                    t: Text, depth: nat, pretty: bool, r: Text)
    requires es != [] && KeyAt(ts, i) == Some(es[0].key) && Reads(cfg, ts, i + 2, d, es[0].value, t)
    requires d + Height(es[0].value) > STACK_LIMIT || |es| == 1
    requires |es| == 1 ==> t == DictEnd(depth, pretty, r)
    requires Behind(acc, es)
    ensures DictReads(cfg, ts, i, d, es, acc, r)
  {
    EntriesCons(es);
    hide BuildDict, At, Height, HeightEntries, Widen, WidenEntries, Put, Decode, DictEnd, Behind;
    assert ts[i].TStr?;
    if d + Height(es[0].value) > STACK_LIMIT {
      DictFails(cfg, ts, i, d, acc, es[0].key);
    } else {
      var p := BuildValue(cfg, ts, i + 2, d, false).value;
      ReadDictEnd(ts, p.next, depth, pretty, r);
      PutFirst(acc, es, p.v);
      DictLast(cfg, ts, i, d, acc, es[0].key, p);
    }
    hide BuildValue;
  }

  lemma {:induction false} EntriesRead(cfg: Config, ts: seq<Tok>, i: nat, d: int, es: seq<Entry>, acc: seq<Entry>,
                                       depth: nat, pretty: bool, r: Text)
    requires forall e :: e in es ==> Printable(e.value)
    requires Behind(acc, es)
    requires d <= STACK_LIMIT && (es == [] ==> acc == [])
    requires At(ts, i, PrintEntries(es, depth, pretty) + DictEnd(depth, pretty, r))
    ensures DictReads(cfg, ts, i, d, es, acc, r)
    decreases es, 1
  {
    var s := DictEnd(depth, pretty, r);
    assert i <= |ts|;
    if es == [] {
      NoEntries(cfg, ts, i, d, depth, pretty, r);
    } else {
      var key, v, t := es[0].key, es[0].value, EntriesTail(es, depth, pretty, s);
      PrintEntriesCons(es, depth, pretty, s);
      ReadDictEnd(ts, i, depth, pretty, r);
      hide *;
      EntryKeyReads(ts, i, es[0], depth, pretty, t);
      KeyInside(ts, i, key);
      ValueReads(cfg, ts, i + 2, d, v, depth + 1, pretty, t);
      if d + Height(v) > STACK_LIMIT || |es| == 1 {
        EntryEnd(cfg, ts, i, d, es, acc, t, depth, pretty, r);
      } else {
        EntriesReadMore(cfg, ts, i, d, es, acc, depth, pretty, r);
      }
    }
  }

  lemma {:induction false} EntriesReadMore(cfg: Config, ts: seq<Tok>, i: nat, d: int, es: seq<Entry>, acc: seq<Entry>,
                                           depth: nat, pretty: bool, r: Text)
    requires |es| > 1 && forall e :: e in es ==> Printable(e.value)
    requires Behind(acc, es) && d + Height(es[0].value) <= STACK_LIMIT
    requires i + 2 <= |ts| && KeyAt(ts, i) == Some(es[0].key)
    requires Reads(cfg, ts, i + 2, d, es[0].value, EntriesTail(es, depth, pretty, DictEnd(depth, pretty, r)))
    ensures DictReads(cfg, ts, i, d, es, acc, r)
    decreases es, 0
  {
    hide *;
    var s := DictEnd(depth, pretty, r);
    var p := ReadsValue(cfg, ts, i + 2, d, es[0].value, EntriesTail(es, depth, pretty, s));
    EntriesTailStep(ts, p.next, es, depth, pretty, s);
    PutFirst(acc, es, p.v);
    EntriesRead(cfg, ts, p.next + 1, d, es[1..], acc + [Entry(es[0].key, p.v)], depth, pretty, r);
    EntryStep(cfg, ts, i, d, es, acc, r, p);
  }

  // ---------- values ----------

  lemma ListPrint(items: seq<Value>, depth: nat, pretty: bool, r: Text)
    requires forall x :: x in items ==> Printable(x)
    ensures Print(List(items), depth, pretty) + r
         == [LBRACKET] + (Pretty(pretty, [SPACE]) + (PrintItems(items, depth, pretty) + ListEnd(pretty, r)))
  {
    hide PrintItems;
    assert Print(List(items), depth, pretty) == [LBRACKET] + Pretty(pretty, [SPACE]) + PrintItems(items, depth, pretty) + Pretty(pretty, [SPACE]) + [RBRACKET];
  }

  lemma DictPrint(es: seq<Entry>, depth: nat, pretty: bool, r: Text)
    requires Printable(Dict(es))
    ensures Print(Dict(es), depth, pretty) + r
         == [LBRACE] + (Pretty(pretty, [LF]) + (PrintEntries(es, depth, pretty) + DictEnd(depth, pretty, r)))
  {
    hide PrintEntries;
    assert Print(Dict(es), depth, pretty) == [LBRACE] + Pretty(pretty, [LF]) + PrintEntries(es, depth, pretty) + Pretty(pretty, [LF] + Indent(depth)) + [RBRACE];
  }

  lemma ListOpens(cfg: Config, ts: seq<Tok>, i: nat, d: int, items: seq<Value>, r: Text)
    requires i < |ts| && ts[i] == TLBracket
    requires d < STACK_LIMIT ==> ListReads(cfg, ts, i + 1, d + 1, items, [], r)
    ensures Reads(cfg, ts, i, d, List(items), r)
  {
    hide BuildList, At, HeightItems, WidenItems;
    assert [] + WidenItems(items) == WidenItems(items);
  }

  lemma DictOpens(cfg: Config, ts: seq<Tok>, i: nat, d: int, es: seq<Entry>, r: Text)
    requires i < |ts| && ts[i] == TLBrace
    requires d < STACK_LIMIT ==> DictReads(cfg, ts, i + 1, d + 1, es, [], r)
    ensures Reads(cfg, ts, i, d, Dict(es), r)
  {
    hide BuildDict, At, HeightEntries, WidenEntries;
    assert [] + WidenEntries(es) == WidenEntries(es);
  }

  lemma OpeningLexemes()
    ensures IsLexeme([LBRACKET], TLBracket) && IsLexeme([LBRACE], TLBrace) && IsSpace(SPACE) && IsSpace(LF)
  {
  }

  lemma ListStarts(ts: seq<Tok>, i: nat, items: seq<Value>, depth: nat, pretty: bool, r: Text)
    requires Printable(List(items)) && At(ts, i, Print(List(items), depth, pretty) + r)
    ensures forall x :: x in items ==> Printable(x)
    ensures i < |ts| && ts[i] == TLBracket && At(ts, i + 1, PrintItems(items, depth, pretty) + ListEnd(pretty, r))
  {
    ListParts(items);
    hide *;
    ListPrint(items, depth, pretty, r);
    OpeningLexemes();
    var t := PrintItems(items, depth, pretty) + ListEnd(pretty, r);
    NextLexeme(ts, i, [LBRACKET], TLBracket, Pretty(pretty, [SPACE]) + t);
    SkipPretty(ts, i + 1, pretty, SPACE, t);
  }

  lemma ListParts(items: seq<Value>)
    requires Printable(List(items))
    ensures forall x :: x in items ==> Printable(x)
  {
  }

  lemma {:induction false} ListValueReads(cfg: Config, ts: seq<Tok>, i: nat, d: int, items: seq<Value>,
                                          depth: nat, pretty: bool, r: Text)
    requires Printable(List(items)) && At(ts, i, Print(List(items), depth, pretty) + r)
    ensures Reads(cfg, ts, i, d, List(items), r)
    decreases items, 2
  {
    hide *;
    ListStarts(ts, i, items, depth, pretty, r);
    if d < STACK_LIMIT {
      ItemsRead(cfg, ts, i + 1, d + 1, items, [], depth, pretty, r);
    }
    ListOpens(cfg, ts, i, d, items, r);
  }

  lemma DictParts(es: seq<Entry>)
    requires Printable(Dict(es))
    ensures Behind([], es) && forall e :: e in es ==> Printable(e.value)
  {
    hide Less;
  }

  lemma DictStarts(ts: seq<Tok>, i: nat, es: seq<Entry>, depth: nat, pretty: bool, r: Text)
    requires Printable(Dict(es)) && At(ts, i, Print(Dict(es), depth, pretty) + r)
    ensures Behind([], es) && forall e :: e in es ==> Printable(e.value)
    ensures i < |ts| && ts[i] == TLBrace && At(ts, i + 1, PrintEntries(es, depth, pretty) + DictEnd(depth, pretty, r))
  {
    DictParts(es);
    hide *;
    DictPrint(es, depth, pretty, r);
    OpeningLexemes();
    var t := PrintEntries(es, depth, pretty) + DictEnd(depth, pretty, r);
    NextLexeme(ts, i, [LBRACE], TLBrace, Pretty(pretty, [LF]) + t);
    SkipPretty(ts, i + 1, pretty, LF, t);
  }

  lemma {:induction false} DictValueReads(cfg: Config, ts: seq<Tok>, i: nat, d: int, es: seq<Entry>,
                                          depth: nat, pretty: bool, r: Text)
    requires Printable(Dict(es)) && At(ts, i, Print(Dict(es), depth, pretty) + r)
    ensures Reads(cfg, ts, i, d, Dict(es), r)
    decreases es, 2
  {
    hide *;
    DictStarts(ts, i, es, depth, pretty, r);
    if d < STACK_LIMIT {
      EntriesRead(cfg, ts, i + 1, d + 1, es, [], depth, pretty, r);
    }
    DictOpens(cfg, ts, i, d, es, r);
  }

  lemma {:induction false} ValueReads(cfg: Config, ts: seq<Tok>, i: nat, d: int, v: Value, depth: nat, pretty: bool, r: Text)
    requires Printable(v) && Stops(r) && At(ts, i, Print(v, depth, pretty) + r)
    ensures Reads(cfg, ts, i, d, v, r)
    decreases v, 0
  {
    hide Print, Reads, At;
    if v.List? {
      ListValueReads(cfg, ts, i, d, v.items, depth, pretty, r);
    } else if v.Dict? {
      DictValueReads(cfg, ts, i, d, v.entries, depth, pretty, r);
    } else {
      ScalarReads(cfg, ts, i, d, v, depth, pretty, r);
    }
  }

  lemma RootIsContainer(v: Value, pretty: bool, ts: seq<Tok>)
    requires Printable(v) && (v.List? || v.Dict?) && At(ts, 0, Print(v, 0, pretty) + [])
    ensures ts != [] && (ts[0].TLBracket? || ts[0].TLBrace?)
  {
    hide *;
    match v
    case List(items) => ListStarts(ts, 0, items, 0, pretty, []);
    case Dict(es) => DictStarts(ts, 0, es, 0, pretty, []);
  }

  // ---------- the printed text holds no NUL ----------

  lemma {:induction false} EscapeNulFree(s: Text)
    requires NulFree(s)
    ensures NulFree(Escape(s))
  {
    if s != [] {
      EscapeNulFree(s[1..]);
      hide Escape;
    }
  }

  lemma IntNulFree(n: int)
    ensures NulFree(IntText(n))
  {
    NatTextValue(if n < 0 then -n else n);
    hide NatText, DigitsValue;
  }

  lemma {:induction false} PrintNulFree(v: Value, depth: nat, pretty: bool)
    requires Printable(v)
    ensures NulFree(Print(v, depth, pretty))
    decreases v, 0
  {
    match v {
      case Null =>
      case Bool(b) =>
      case Int32(n) => IntNulFree(n);
      case Int64(n) => IntNulFree(n);
      case Str(s) => EscapeNulFree(s); hide Escape;
      case List(items) => ItemsNulFree(items, depth, pretty); hide PrintItems, Printable;
      case Dict(es) => EntriesNulFree(es, depth, pretty); hide PrintEntries, Printable;
    }
  }

  lemma {:induction false} ItemsNulFree(items: seq<Value>, depth: nat, pretty: bool)
    requires forall x :: x in items ==> Printable(x)
    ensures NulFree(PrintItems(items, depth, pretty))
    decreases items, 1
  {
    if items != [] {
      PrintNulFree(items[0], depth, pretty);
      ItemsNulFree(items[1..], depth, pretty);
      hide Print, Printable;
    }
  }

  lemma {:induction false} EntriesNulFree(es: seq<Entry>, depth: nat, pretty: bool)
    requires forall e :: e in es ==> NulFree(e.key) && Printable(e.value)
    ensures NulFree(PrintEntries(es, depth, pretty))
    decreases es, 1
  {
    if es != [] {
      EscapeNulFree(es[0].key);
      PrintNulFree(es[0].value, depth + 1, pretty);
      EntriesNulFree(es[1..], depth, pretty);
      EntryNulFree(es[0], depth, pretty);
      hide Print, Printable, Escape, PrintEntry;
    }
  }

  lemma EntryNulFree(e: Entry, depth: nat, pretty: bool)
    requires Printable(e.value) && NulFree(Escape(e.key)) && NulFree(Print(e.value, depth + 1, pretty))
    ensures NulFree(PrintEntry(e, depth, pretty))
  {
    hide Print, Printable, Escape;
  }

  // The round trip: a list or dictionary of height at most the stack limit comes back
  // from its printed text, all of it consumed; a higher one is refused.
  lemma RoundTrip(cfg: Config, v: Value, pretty: bool)
    requires Printable(v) && (v.List? || v.Dict?)
    ensures NulFree(Print(v, 0, pretty))
    ensures var ts := Toks(Print(v, 0, pretty));
            BuildValue(cfg, ts, 0, 0, true) == if Height(v) <= 100 then Some(Parsed(Widen(v), |ts|)) else None
  {
    var ts := Toks(Print(v, 0, pretty));
    PrintNulFree(v, 0, pretty);
    StartOf(Print(v, 0, pretty));
    RootIsContainer(v, pretty, ts);
    hide Print, Printable, Toks, At, Stops, Widen, NulFree;
    ValueReads(cfg, ts, 0, 0, v, 0, pretty, []);
    AtEnd(ts);
    RootOfContainer(cfg, ts);
    hide BuildValue;
  }

  lemma StartOf(s: Text)
    ensures At(Toks(s), 0, s + []) && Stops([])
  {
    assert s + [] == s && Toks(s)[0..] == Toks(s);
  }

  lemma AtEnd(ts: seq<Tok>)
    ensures forall j: nat :: At(ts, j, []) ==> j == |ts|
  {
    assert Toks([]) == [];
  }

  lemma RootOfContainer(cfg: Config, ts: seq<Tok>)
    requires ts != [] && (ts[0].TLBracket? || ts[0].TLBrace?)
    ensures BuildValue(cfg, ts, 0, 0, true) == BuildValue(cfg, ts, 0, 0, false)
  {
  }
}
