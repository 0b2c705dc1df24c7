/** `BuildValue` of `json_serializer.cc` on the token stream: which token sequences
    it accepts, the tree it builds, how deep it goes. */
module JsonGrammar {
  import opened Wrappers
  import opened JsonLex
  import opened JsonValue

  const STACK_LIMIT := 100      // kStackLimit

  // allow_trailing_comma_, and which texts StringToDouble reads as a finite number.
  datatype Config = Config(trailingComma: bool, isReal: Text -> bool)

  datatype Parsed = Parsed(v: Value, next: nat)

  // ---------- numbers ----------

  const INT64_MIN: int := -0x8000_0000_0000_0000
  const INT64_MAX: int := 0x7FFF_FFFF_FFFF_FFFF

  // The value of a run of digits.
  function DigitsValue(t: Text): int {
    if t == [] then 0 else 10 * DigitsValue(t[..|t| - 1]) + (t[|t| - 1] - 48)
  }

  // StringToInt64: the whole text is one decimal integer in range.
  function ToInt64(t: Text): Option<int> {
    var m := if Next(t) == MINUS then 1 else 0;
    if m == |t| || exists i :: m <= i < |t| && !IsDigit(t[i]) then None
    else
      var n := if m == 1 then -DigitsValue(t[1..]) else DigitsValue(t);
      if INT64_MIN <= n <= INT64_MAX then Some(n) else None
  }

  function DecodeNumber(cfg: Config, t: Text): Option<Value> {
    match ToInt64(t)
    case Some(n) => Some(Int64(n))
    case None => if cfg.isReal(t) then Some(Real(t)) else None
  }

  // ---------- BuildValue ----------

  // BuildValue(is_root) at token i with stack_depth_ == d on entry.
  function BuildValue(cfg: Config, ts: seq<Tok>, i: nat, d: int, isRoot: bool): (r: Option<Parsed>)
    requires i <= |ts|
    ensures r.Some? ==> i < r.value.next <= |ts|
    decreases |ts| - i, 0
  {
    if d + 1 > STACK_LIMIT then None
    else if isRoot && !(i < |ts| && (ts[i].TLBrace? || ts[i].TLBracket?)) then None
    else if i == |ts| then None
    else
      match ts[i]
      case TNull => Some(Parsed(Null, i + 1))
      case TTrue => Some(Parsed(Bool(true), i + 1))
      case TFalse => Some(Parsed(Bool(false), i + 1))
      case TNum(t) => (match DecodeNumber(cfg, t) case None => None case Some(v) => Some(Parsed(v, i + 1)))
      case TStr(b) => (match Decode(b) case None => None case Some(s) => Some(Parsed(Str(s), i + 1)))
      case TLBracket => BuildList(cfg, ts, i + 1, d + 1, [])
      case TLBrace => BuildDict(cfg, ts, i + 1, d + 1, [])
      case _ => None
  }

  // The array loop: `acc` is the list built so far, token i is the current one.
  function BuildList(cfg: Config, ts: seq<Tok>, i: nat, d: int, acc: seq<Value>): (r: Option<Parsed>)
    requires i <= |ts|
    ensures r.Some? ==> i < r.value.next <= |ts|
    decreases |ts| - i, 2
  {
    if i < |ts| && ts[i].TRBracket? then Some(Parsed(List(acc), i + 1))
    else
      match ItemAt(cfg, ts, i, d)
      case None => None
      case Some(x) =>
        if x.last then Some(Parsed(List(acc + [x.v]), x.next)) else BuildList(cfg, ts, x.next, d, acc + [x.v])
  }

  // The object loop.
  function BuildDict(cfg: Config, ts: seq<Tok>, i: nat, d: int, acc: seq<Entry>): (r: Option<Parsed>)
    requires i <= |ts|
    ensures r.Some? ==> i < r.value.next <= |ts|
    decreases |ts| - i, 2
  {
    if i < |ts| && ts[i].TRBrace? then Some(Parsed(Dict(acc), i + 1))
    else
      match EntryAt(cfg, ts, i, d)
      case None => None
      case Some(x) =>
        if x.last then Some(Parsed(Dict(Put(acc, x.key, x.v)), x.next))
        else BuildDict(cfg, ts, x.next, d, Put(acc, x.key, x.v))
  }

  // One round of a loop: the key (of an object), the value, whether the container
  // ends behind it, and the token to go on with.
  datatype Item = Item(key: Text, v: Value, last: bool, next: nat)

  function ItemAt(cfg: Config, ts: seq<Tok>, i: nat, d: int): (r: Option<Item>)
    requires i <= |ts|
    ensures r.Some? ==> i < r.value.next <= |ts|
    decreases |ts| - i, 1
  {
    match BuildValue(cfg, ts, i, d, false)
    case None => None
    case Some(p) => AfterItem(cfg, ts, p.next, TRBracket, [], p.v)
  }

  function EntryAt(cfg: Config, ts: seq<Tok>, i: nat, d: int): (r: Option<Item>)
    requires i <= |ts|
    ensures r.Some? ==> i < r.value.next <= |ts|
    decreases |ts| - i, 1
  {
    match KeyAt(ts, i)
    case None => None
    case Some(key) =>
      match BuildValue(cfg, ts, i + 2, d, false)
      case None => None
      case Some(p) => AfterItem(cfg, ts, p.next, TRBrace, key, p.v)
  }

  // A comma or the closing bracket is expected; a comma in front of the closing
  // bracket is an error unless trailing commas are allowed.
  function AfterItem(cfg: Config, ts: seq<Tok>, j: nat, close: Tok, key: Text, v: Value): (r: Option<Item>)
    requires j <= |ts|
    ensures r.Some? ==> j < r.value.next <= |ts|
  {
    if j == |ts| then None
    else if ts[j] == TComma then
      if j + 1 < |ts| && ts[j + 1] == close then if cfg.trailingComma then Some(Item(key, v, true, j + 2)) else None
      else Some(Item(key, v, false, j + 1))
    else if ts[j] == close then Some(Item(key, v, true, j + 1))
    else None
  }

  // The decoded key when a string and a colon stand at token i.
  function KeyAt(ts: seq<Tok>, i: nat): (r: Option<Text>)
    ensures r.Some? ==> i + 2 <= |ts|
  {
    if i + 1 < |ts| && ts[i].TStr? && ts[i + 1].TColon? then Decode(ts[i].body) else None
  }

  // ---------- depth ----------

  function Max(a: nat, b: nat): nat {
    if a < b then b else a
  }

  // The height of a tree, a scalar counting as one level.
  function Height(v: Value): nat {
    match v
    case List(items) => 1 + HeightItems(items)
    case Dict(entries) => 1 + HeightEntries(entries)
    case _ => 1
  }

  function HeightItems(items: seq<Value>): nat {
    if items == [] then 0 else Max(HeightItems(items[..|items| - 1]), Height(items[|items| - 1]))
  }

  function HeightEntries(es: seq<Entry>): nat {
    if es == [] then 0 else Max(Height(es[0].value), HeightEntries(es[1..]))
  }

  lemma HeightSnoc(items: seq<Value>, v: Value)
    ensures HeightItems(items + [v]) == Max(HeightItems(items), Height(v))
  {
    assert (items + [v])[..|items + [v]| - 1] == items;
  }

  lemma {:induction false} HeightPut(es: seq<Entry>, k: Text, v: Value)
    ensures HeightEntries(Put(es, k, v)) <= Max(HeightEntries(es), Height(v))
  {
    if es == [] || Less(k, es[0].key) {
      assert ([Entry(k, v)] + es)[1..] == es;
    } else if es[0].key == k {
      assert ([Entry(k, v)] + es[1..])[1..] == es[1..];
    } else {
      HeightPut(es[1..], k, v);
      assert ([es[0]] + Put(es[1..], k, v))[1..] == Put(es[1..], k, v);
    }
  }

  // The value of an item is one that BuildValue makes.
  lemma ItemIsBuilt(cfg: Config, ts: seq<Tok>, i: nat, d: int)
    requires i <= |ts|
    ensures var x := ItemAt(cfg, ts, i, d);
            x.Some? ==> var r := BuildValue(cfg, ts, i, d, false); r.Some? && r.value.v == x.value.v
    ensures var x := EntryAt(cfg, ts, i, d);
            x.Some? ==> i + 2 <= |ts| && var r := BuildValue(cfg, ts, i + 2, d, false); r.Some? && r.value.v == x.value.v
  {
    hide BuildValue, KeyAt;
  }

  // No tree deeper than the stack limit is ever built.
  lemma {:induction false} DepthIsBounded(cfg: Config, ts: seq<Tok>, i: nat, d: int, isRoot: bool)
    requires i <= |ts| && BuildValue(cfg, ts, i, d, isRoot).Some?
    ensures d + Height(BuildValue(cfg, ts, i, d, isRoot).value.v) <= 100
    decreases |ts| - i, 0
  {
    match ts[i]
    case TLBracket => ListDepthIsBounded(cfg, ts, i + 1, d + 1, []);
    case TLBrace => DictDepthIsBounded(cfg, ts, i + 1, d + 1, []);
    case _ =>
  }

  lemma {:induction false} ListDepthIsBounded(cfg: Config, ts: seq<Tok>, i: nat, d: int, acc: seq<Value>)
    requires i <= |ts| && BuildList(cfg, ts, i, d, acc).Some?
    requires d <= STACK_LIMIT && d + HeightItems(acc) <= STACK_LIMIT
    ensures d - 1 + Height(BuildList(cfg, ts, i, d, acc).value.v) <= STACK_LIMIT
    decreases |ts| - i, 1
  {
    hide BuildValue, BuildDict, ItemAt, HeightItems;
    ItemIsBuilt(cfg, ts, i, d);
    if !(i < |ts| && ts[i].TRBracket?) {
      DepthIsBounded(cfg, ts, i, d, false);
      var x := ItemAt(cfg, ts, i, d).value;
      HeightSnoc(acc, x.v);
      if !x.last {
        ListDepthIsBounded(cfg, ts, x.next, d, acc + [x.v]);
      }
    }
  }

  lemma {:induction false} DictDepthIsBounded(cfg: Config, ts: seq<Tok>, i: nat, d: int, acc: seq<Entry>)
    requires i <= |ts| && BuildDict(cfg, ts, i, d, acc).Some?
    requires d <= STACK_LIMIT && d + HeightEntries(acc) <= STACK_LIMIT
    ensures d - 1 + Height(BuildDict(cfg, ts, i, d, acc).value.v) <= STACK_LIMIT
    decreases |ts| - i, 1
  {
    hide BuildValue, BuildList, EntryAt, HeightEntries, Put;
    ItemIsBuilt(cfg, ts, i, d);
    if !(i < |ts| && ts[i].TRBrace?) {
      DepthIsBounded(cfg, ts, i + 2, d, false);
      var x := EntryAt(cfg, ts, i, d).value;
      HeightPut(acc, x.key, x.v);
      if !x.last {
        DictDepthIsBounded(cfg, ts, x.next, d, Put(acc, x.key, x.v));
      }
    }
  }
}
