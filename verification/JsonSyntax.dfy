/** The token sequences `BuildValue` accepts, as the grammar of RFC 4627 with the parser's
    one extension: trailing commas, where they are allowed.  The parser is proved to accept
    exactly these, up to a depth of 100, and to give them their meaning. */
module JsonSyntax {
  import opened Wrappers
  import opened JsonLex
  import opened JsonValue
  import opened JsonGrammar
  import opened ValueTree

  // ---------- the grammar ----------

  // A JSON value as it is written: a scalar is one token; `trailing` says whether a comma
  // stands in front of the closing bracket.
  datatype Syntax =
    | Scalar(tok: Tok)
    | Array(items: seq<Syntax>, trailing: bool)
    | Object(members: seq<Member>, trailing: bool)

  // The contents of the key's string token, and the value.
  datatype Member = Member(key: Text, value: Syntax)

  // Behind the last item.
  function Ending(close: Tok, trailing: bool): seq<Tok> {
    if trailing then [TComma, close] else [close]
  }

  function Spelled(x: Syntax): seq<Tok>
    decreases x, 0
  {
    match x
    case Scalar(tok) => [tok]
    case Array(items, trailing) => [TLBracket] + ItemsSpelled(items, trailing)
    case Object(members, trailing) => [TLBrace] + MembersSpelled(members, trailing)
  }

  function ItemsSpelled(items: seq<Syntax>, trailing: bool): seq<Tok>
    decreases items, 1
  {
    if items == [] then [TRBracket]
    else Spelled(items[0]) + if |items| == 1 then Ending(TRBracket, trailing) else [TComma] + ItemsSpelled(items[1..], trailing)
  }

  function MembersSpelled(members: seq<Member>, trailing: bool): seq<Tok>
    decreases members, 1
  {
    if members == [] then [TRBrace]
    else
      [TStr(members[0].key), TColon]
      + (Spelled(members[0].value)
         + if |members| == 1 then Ending(TRBrace, trailing) else [TComma] + MembersSpelled(members[1..], trailing))
  }

  // Numbers and strings have a value, and commas trail only where they may.
  predicate Fine(cfg: Config, x: Syntax) {
    match x
    case Scalar(tok) =>
      tok == TNull || tok == TTrue || tok == TFalse || (tok.TNum? && DecodeNumber(cfg, tok.text).Some?)
      || (tok.TStr? && Decode(tok.body).Some?)
    case Array(items, trailing) =>
      (trailing ==> cfg.trailingComma && items != []) && forall y :: y in items ==> Fine(cfg, y)
    case Object(members, trailing) =>
      (trailing ==> cfg.trailingComma && members != []) && forall m :: m in members ==> Decode(m.key).Some? && Fine(cfg, m.value)
  }

  // The value that is written; members are entered in the order in which they stand.
  function Meaning(cfg: Config, x: Syntax): Value
    requires Fine(cfg, x)
    decreases x, 0
  {
    match x
    case Scalar(tok) => (
      match tok
      case TTrue => Bool(true)
      case TFalse => Bool(false)
      case TNum(t) => DecodeNumber(cfg, t).value
      case TStr(b) => Str(Decode(b).value)
      case _ => Null)
    case Array(items, _) => List(ItemsMeaning(cfg, items))
    case Object(members, _) => Dict(Entered(cfg, members, []))
  }

  function ItemsMeaning(cfg: Config, items: seq<Syntax>): seq<Value>
    requires forall y :: y in items ==> Fine(cfg, y)
    decreases items, 1
  {
    if items == [] then [] else [Meaning(cfg, items[0])] + ItemsMeaning(cfg, items[1..])
  }

  function Entered(cfg: Config, members: seq<Member>, acc: seq<Entry>): seq<Entry>
    requires forall m :: m in members ==> Decode(m.key).Some? && Fine(cfg, m.value)
    decreases members, 1
  {
    if members == [] then acc
    else Entered(cfg, members[1..], Put(acc, Decode(members[0].key).value, Meaning(cfg, members[0].value)))
  }

  // How deep the brackets are nested, a scalar counting as one level.
  function Depth(x: Syntax): nat
    decreases x, 0
  {
    match x
    case Scalar(_) => 1
    case Array(items, _) => 1 + ItemsDepth(items)
    case Object(members, _) => 1 + MembersDepth(members)
  }

  function ItemsDepth(items: seq<Syntax>): nat
    decreases items, 1
  {
    if items == [] then 0 else Max(Depth(items[0]), ItemsDepth(items[1..]))
  }

  function MembersDepth(members: seq<Member>): nat
    decreases members, 1
  {
    if members == [] then 0 else Max(Depth(members[0].value), MembersDepth(members[1..]))
  }

  // ---------- tokens at a position ----------

  predicate Stands(ts: seq<Tok>, i: nat, xs: seq<Tok>) {
    i + |xs| <= |ts| && ts[i..i + |xs|] == xs
  }

  lemma Parts(ts: seq<Tok>, i: nat, a: seq<Tok>, b: seq<Tok>)
    ensures Stands(ts, i, a + b) <==> Stands(ts, i, a) && Stands(ts, i + |a|, b)
  {
    if Stands(ts, i, a + b) {
      assert (a + b)[..|a|] == a && (a + b)[|a|..] == b;
    }
    if Stands(ts, i, a) && Stands(ts, i + |a|, b) {
      assert ts[i..i + |a|] + ts[i + |a|..i + |a| + |b|] == ts[i..i + |a + b|];
    }
  }

  lemma One(ts: seq<Tok>, i: nat, t: Tok)
    ensures Stands(ts, i, [t]) <==> i < |ts| && ts[i] == t
  {
    assert i < |ts| ==> ts[i..i + 1] == [ts[i]];
  }

  // ---------- what comes behind a value in a loop ----------

  lemma EndReads(cfg: Config, ts: seq<Tok>, m: nat, close: Tok, trailing: bool, key: Text, v: Value)
    requires Stands(ts, m, Ending(close, trailing)) && close != TComma && (trailing ==> cfg.trailingComma)
    ensures m < |ts| && AfterItem(cfg, ts, m, close, key, v) == Some(Item(key, v, true, m + |Ending(close, trailing)|))
  {
    var e := Ending(close, trailing);
    assert ts[m] == ts[m..m + |e|][0];
    assert trailing ==> ts[m + 1] == ts[m..m + |e|][1];
  }

  lemma MoreReads(cfg: Config, ts: seq<Tok>, m: nat, close: Tok, key: Text, v: Value)
    requires m + 1 < |ts| && ts[m] == TComma && ts[m + 1] != close && close != TComma
    ensures AfterItem(cfg, ts, m, close, key, v) == Some(Item(key, v, false, m + 1))
  {
  }

  // What AfterItem accepts is one of the two.
  lemma AfterIs(cfg: Config, ts: seq<Tok>, m: nat, close: Tok, key: Text, v: Value) returns (trailing: bool)
    requires m <= |ts| && close != TComma && AfterItem(cfg, ts, m, close, key, v).Some?
    ensures var x := AfterItem(cfg, ts, m, close, key, v).value;
            && x.v == v && x.key == key
            && if x.last then
                 && (trailing ==> cfg.trailingComma) && Stands(ts, m, Ending(close, trailing))
                 && x.next == m + |Ending(close, trailing)|
               else m < |ts| && ts[m] == TComma && x.next == m + 1 && (m + 1 < |ts| ==> ts[m + 1] != close)
  {
    trailing := ts[m] == TComma;
    assert m + 1 < |ts| ==> ts[m..m + 2] == [ts[m], ts[m + 1]];
    assert ts[m..m + 1] == [ts[m]];
  }

  // The first token of a value closes nothing.
  lemma {:induction false} Opens(cfg: Config, x: Syntax)
    requires Fine(cfg, x)
    ensures Spelled(x) != [] && Spelled(x)[0] != TRBracket && Spelled(x)[0] != TRBrace && Spelled(x)[0] != TComma
  {
  }

  // ---------- what is written is read ----------

  // What BuildValue answers on a value of this depth that stands at token i.
  ghost predicate Read(r: Option<Parsed>, deepEnough: bool, v: Value, next: nat) {
    if deepEnough then r == Some(Parsed(v, next)) else r == None
  }

  lemma {:induction false} Complete(cfg: Config, ts: seq<Tok>, i: nat, d: int, x: Syntax)
    requires Fine(cfg, x) && Stands(ts, i, Spelled(x))
    ensures Read(BuildValue(cfg, ts, i, d, false), d + Depth(x) <= 100, Meaning(cfg, x), i + |Spelled(x)|)
    decreases x, 0
  {
    hide BuildValue, BuildList, BuildDict, ItemsSpelled, MembersSpelled, ItemsMeaning, Stands;
    match x
    case Scalar(tok) =>
      CompleteScalar(cfg, ts, i, d, tok);
    case Array(items, trailing) =>
      Parts(ts, i, [TLBracket], ItemsSpelled(items, trailing));
      One(ts, i, TLBracket);
      BracketStep(cfg, ts, i, d);
      if d + 1 <= 100 {
        CompleteItems(cfg, ts, i + 1, d + 1, items, trailing, []);
        assert [] + ItemsMeaning(cfg, items) == ItemsMeaning(cfg, items);
      }
    case Object(members, trailing) =>
      Parts(ts, i, [TLBrace], MembersSpelled(members, trailing));
      One(ts, i, TLBrace);
      BracketStep(cfg, ts, i, d);
      if d + 1 <= 100 {
        CompleteMembers(cfg, ts, i + 1, d + 1, members, trailing, []);
      }
  }

  lemma {:induction false} CompleteScalar(cfg: Config, ts: seq<Tok>, i: nat, d: int, tok: Tok)
    requires Fine(cfg, Scalar(tok)) && Stands(ts, i, [tok])
    ensures Read(BuildValue(cfg, ts, i, d, false), d + 1 <= 100, Meaning(cfg, Scalar(tok)), i + 1)
  {
    hide BuildList, BuildDict, Decode, DecodeNumber;
    One(ts, i, tok);
  }

  lemma BracketStep(cfg: Config, ts: seq<Tok>, i: nat, d: int)
    requires i < |ts| && (ts[i] == TLBracket || ts[i] == TLBrace)
    ensures BuildValue(cfg, ts, i, d, false)
         == if d + 1 > 100 then None
            else if ts[i] == TLBracket then BuildList(cfg, ts, i + 1, d + 1, []) else BuildDict(cfg, ts, i + 1, d + 1, [])
  {
    hide BuildList, BuildDict;
  }

  // One round of each loop.
  lemma {:induction false} ListStep(cfg: Config, ts: seq<Tok>, i: nat, d: int, acc: seq<Value>)
    requires i < |ts| && ts[i] != TRBracket
    ensures BuildList(cfg, ts, i, d, acc)
         == match BuildValue(cfg, ts, i, d, false)
            case None => None
            case Some(p) =>
              match AfterItem(cfg, ts, p.next, TRBracket, [], p.v)
              case None => None
              case Some(x) =>
                if x.last then Some(Parsed(List(acc + [x.v]), x.next)) else BuildList(cfg, ts, x.next, d, acc + [x.v])
  {
    hide BuildValue, AfterItem;
  }

  lemma {:induction false} DictStep(cfg: Config, ts: seq<Tok>, i: nat, d: int, acc: seq<Entry>)
    requires i + 1 < |ts| && ts[i].TStr? && ts[i + 1] == TColon && Decode(ts[i].body).Some?
    ensures BuildDict(cfg, ts, i, d, acc)
         == match BuildValue(cfg, ts, i + 2, d, false)
            case None => None
            case Some(p) =>
              match AfterItem(cfg, ts, p.next, TRBrace, Decode(ts[i].body).value, p.v)
              case None => None
              case Some(x) =>
                if x.last then Some(Parsed(Dict(Put(acc, x.key, x.v)), x.next))
                else BuildDict(cfg, ts, x.next, d, Put(acc, x.key, x.v))
  {
    hide BuildValue, AfterItem, Decode, Put;
  }

  // The tokens of a list that is not empty: its first item, and the end or a comma and the
  // other items, which do not begin with a closing bracket.
  lemma {:induction false} ItemsParts(cfg: Config, ts: seq<Tok>, i: nat, items: seq<Syntax>, trailing: bool)
    requires items != [] && (forall y :: y in items ==> Fine(cfg, y)) && Stands(ts, i, ItemsSpelled(items, trailing))
    ensures var m := i + |Spelled(items[0])|;
            && Stands(ts, i, Spelled(items[0])) && i < |ts| && ts[i] != TRBracket
            && if |items| == 1 then
                 Stands(ts, m, Ending(TRBracket, trailing))
                 && i + |ItemsSpelled(items, trailing)| == m + |Ending(TRBracket, trailing)|
               else
                 m + 1 < |ts| && ts[m] == TComma && ts[m + 1] != TRBracket && Stands(ts, m + 1, ItemsSpelled(items[1..], trailing))
                 && i + |ItemsSpelled(items, trailing)| == m + 1 + |ItemsSpelled(items[1..], trailing)|
  {
    hide Spelled, Ending, ItemsSpelled, Stands, Fine;
    var xs, rest := Spelled(items[0]), items[1..];
    FirstItem(cfg, ts, i, items, trailing);
    ItemsCons(items, trailing);
    if |items| == 1 {
      Parts(ts, i, xs, Ending(TRBracket, trailing));
    } else {
      var more := ItemsSpelled(rest, trailing);
      Parts(ts, i, xs, [TComma] + more);
      Parts(ts, i + |xs|, [TComma], more);
      One(ts, i + |xs|, TComma);
      FirstItem(cfg, ts, i + |xs| + 1, rest, trailing);
    }
  }

  lemma {:induction false} ItemsCons(items: seq<Syntax>, trailing: bool)
    requires items != []
    ensures ItemsSpelled(items, trailing)
         == Spelled(items[0]) + if |items| == 1 then Ending(TRBracket, trailing) else [TComma] + ItemsSpelled(items[1..], trailing)
  {
    hide Spelled, Ending;
  }

  // The first token of a list that is not empty is no closing bracket.
  lemma {:induction false} FirstItem(cfg: Config, ts: seq<Tok>, i: nat, items: seq<Syntax>, trailing: bool)
    requires items != [] && Fine(cfg, items[0]) && Stands(ts, i, ItemsSpelled(items, trailing))
    ensures i < |ts| && ts[i] != TRBracket
  {
    Opens(cfg, items[0]);
    hide Spelled;
    assert ts[i..i + |ItemsSpelled(items, trailing)|][0] == Spelled(items[0])[0];
  }

  lemma {:induction false} MembersParts(ts: seq<Tok>, i: nat, members: seq<Member>, trailing: bool)
    requires members != [] && Stands(ts, i, MembersSpelled(members, trailing))
    ensures var m := i + 2 + |Spelled(members[0].value)|;
            && i + 1 < |ts| && ts[i] == TStr(members[0].key) && ts[i + 1] == TColon
            && Stands(ts, i + 2, Spelled(members[0].value))
            && if |members| == 1 then
                 Stands(ts, m, Ending(TRBrace, trailing))
                 && i + |MembersSpelled(members, trailing)| == m + |Ending(TRBrace, trailing)|
               else
                 m + 1 < |ts| && ts[m] == TComma && ts[m + 1] != TRBrace && Stands(ts, m + 1, MembersSpelled(members[1..], trailing))
                 && i + |MembersSpelled(members, trailing)| == m + 1 + |MembersSpelled(members[1..], trailing)|
  {
    hide Spelled, Ending, MembersSpelled, Stands;
    var xs, rest, at := Spelled(members[0].value), members[1..], i + 2;
    FirstMember(ts, i, members, trailing);
    MembersCons(members, trailing);
    if |members| == 1 {
      Parts(ts, i, [TStr(members[0].key), TColon], xs + Ending(TRBrace, trailing));
      Parts(ts, at, xs, Ending(TRBrace, trailing));
    } else {
      var more := MembersSpelled(rest, trailing);
      Parts(ts, i, [TStr(members[0].key), TColon], xs + ([TComma] + more));
      Parts(ts, at, xs, [TComma] + more);
      Parts(ts, at + |xs|, [TComma], more);
      One(ts, at + |xs|, TComma);
      FirstMember(ts, at + |xs| + 1, rest, trailing);
    }
  }

  lemma {:induction false} MembersCons(members: seq<Member>, trailing: bool)
    requires members != []
    ensures MembersSpelled(members, trailing)
         == [TStr(members[0].key), TColon]
            + (Spelled(members[0].value)
               + if |members| == 1 then Ending(TRBrace, trailing) else [TComma] + MembersSpelled(members[1..], trailing))
  {
    hide Spelled, Ending;
  }

  lemma {:induction false} FirstMember(ts: seq<Tok>, i: nat, members: seq<Member>, trailing: bool)
    requires members != [] && Stands(ts, i, MembersSpelled(members, trailing))
    ensures i + 1 < |ts| && ts[i] == TStr(members[0].key) && ts[i + 1] == TColon
  {
    hide Spelled;
    var xs := MembersSpelled(members, trailing);
    assert ts[i..i + |xs|][0] == xs[0] && ts[i..i + |xs|][1] == xs[1];
  }

  lemma {:induction false} CompleteItems(cfg: Config, ts: seq<Tok>, i: nat, d: int, items: seq<Syntax>, trailing: bool,
        acc: seq<Value>)
    requires forall y :: y in items ==> Fine(cfg, y)
    requires trailing ==> cfg.trailingComma && items != []
    requires Stands(ts, i, ItemsSpelled(items, trailing)) && d <= 100
    ensures Read(BuildList(cfg, ts, i, d, acc), d + ItemsDepth(items) <= 100,
                 List(acc + ItemsMeaning(cfg, items)), i + |ItemsSpelled(items, trailing)|)
    decreases items, 1
  {
    hide BuildValue, BuildList, AfterItem, Spelled, ItemsSpelled, Meaning, Depth, Fine, Ending, Stands;
    if items == [] {
      NoItems(cfg, ts, i, d, trailing, acc);
      assert acc + [] == acc;
    } else {
      var x, rest := items[0], items[1..];
      ItemsParts(cfg, ts, i, items, trailing);
      ListStep(cfg, ts, i, d, acc);
      Complete(cfg, ts, i, d, x);
      Assoc(acc, Meaning(cfg, x), ItemsMeaning(cfg, rest));
      if d + Depth(x) <= 100 {
        var m := i + |Spelled(x)|;
        if |items| == 1 {
          EndReads(cfg, ts, m, TRBracket, trailing, [], Meaning(cfg, x));
        } else {
          MoreReads(cfg, ts, m, TRBracket, [], Meaning(cfg, x));
          CompleteItems(cfg, ts, m + 1, d, rest, trailing, acc + [Meaning(cfg, x)]);
        }
      }
    }
  }

  lemma Assoc(acc: seq<Value>, v: Value, vs: seq<Value>)
    ensures acc + [v] + vs == acc + ([v] + vs) && (vs == [] ==> acc + [v] + vs == acc + [v])
  {
  }

  lemma {:induction false} NoItems(cfg: Config, ts: seq<Tok>, i: nat, d: int, trailing: bool, acc: seq<Value>)
    requires Stands(ts, i, ItemsSpelled([], trailing))
    ensures i < |ts| && BuildList(cfg, ts, i, d, acc) == Some(Parsed(List(acc), i + 1)) && |ItemsSpelled([], trailing)| == 1
  {
    One(ts, i, TRBracket);
    hide BuildValue;
  }

  lemma {:induction false} NoMembers(cfg: Config, ts: seq<Tok>, i: nat, d: int, trailing: bool, acc: seq<Entry>)
    requires Stands(ts, i, MembersSpelled([], trailing))
    ensures i < |ts| && BuildDict(cfg, ts, i, d, acc) == Some(Parsed(Dict(acc), i + 1)) && |MembersSpelled([], trailing)| == 1
  {
    One(ts, i, TRBrace);
    hide BuildValue;
  }

  lemma {:induction false} CompleteMembers(cfg: Config, ts: seq<Tok>, i: nat, d: int, members: seq<Member>, trailing: bool,
        acc: seq<Entry>)
    requires forall m :: m in members ==> Decode(m.key).Some? && Fine(cfg, m.value)
    requires trailing ==> cfg.trailingComma && members != []
    requires Stands(ts, i, MembersSpelled(members, trailing)) && d <= 100
    ensures Read(BuildDict(cfg, ts, i, d, acc), d + MembersDepth(members) <= 100,
                 Dict(Entered(cfg, members, acc)), i + |MembersSpelled(members, trailing)|)
    decreases members, 1
  {
    hide BuildValue, BuildDict, AfterItem, Spelled, MembersSpelled, Meaning, Depth, Fine, Ending, Stands, Put, Decode;
    if members == [] {
      NoMembers(cfg, ts, i, d, trailing, acc);
    } else {
      var x, rest := members[0], members[1..];
      MembersParts(ts, i, members, trailing);
      DictStep(cfg, ts, i, d, acc);
      Complete(cfg, ts, i + 2, d, x.value);
      if d + Depth(x.value) <= 100 {
        var m := i + 2 + |Spelled(x.value)|;
        var key, v := Decode(x.key).value, Meaning(cfg, x.value);
        if |members| == 1 {
          EndReads(cfg, ts, m, TRBrace, trailing, key, v);
        } else {
          MoreReads(cfg, ts, m, TRBrace, key, v);
          CompleteMembers(cfg, ts, m + 1, d, rest, trailing, Put(acc, key, v));
        }
      }
    }
  }

  // ---------- what is read is written ----------

  lemma {:induction false} Sound(cfg: Config, ts: seq<Tok>, i: nat, d: int) returns (x: Syntax)
    requires i <= |ts| && BuildValue(cfg, ts, i, d, false).Some?
    ensures var p := BuildValue(cfg, ts, i, d, false).value;
            Fine(cfg, x) && d + Depth(x) <= 100 && Stands(ts, i, Spelled(x)) && p == Parsed(Meaning(cfg, x), i + |Spelled(x)|)
    decreases |ts| - i, 0
  {
    hide BuildValue, BuildList, BuildDict, ItemsSpelled, MembersSpelled, ItemsMeaning, Entered;
    hide Stands, Fine, ItemsDepth, MembersDepth;
    Begins(cfg, ts, i, d);
    if ts[i] == TLBracket {
      BracketStep(cfg, ts, i, d);
      var items, trailing := SoundItems(cfg, ts, i + 1, d + 1, []);
      x := Array(items, trailing);
      FineArray(cfg, items, trailing);
      One(ts, i, TLBracket);
      Parts(ts, i, [TLBracket], ItemsSpelled(items, trailing));
      assert [] + ItemsMeaning(cfg, items) == ItemsMeaning(cfg, items);
    } else if ts[i] == TLBrace {
      BracketStep(cfg, ts, i, d);
      var members, trailing := SoundMembers(cfg, ts, i + 1, d + 1, []);
      x := Object(members, trailing);
      FineObject(cfg, members, trailing);
      One(ts, i, TLBrace);
      Parts(ts, i, [TLBrace], MembersSpelled(members, trailing));
    } else {
      x := Scalar(ts[i]);
      One(ts, i, ts[i]);
      CompleteScalar(cfg, ts, i, d, ts[i]);
    }
  }

  lemma {:induction false} Begins(cfg: Config, ts: seq<Tok>, i: nat, d: int)
    requires i <= |ts| && BuildValue(cfg, ts, i, d, false).Some?
    ensures i < |ts| && d + 1 <= 100
    ensures ts[i] == TLBracket || ts[i] == TLBrace || Fine(cfg, Scalar(ts[i]))
  {
    hide BuildList, BuildDict, Decode, DecodeNumber;
  }

  lemma {:induction false} FineArray(cfg: Config, items: seq<Syntax>, trailing: bool)
    requires forall y :: y in items ==> Fine(cfg, y)
    requires trailing ==> cfg.trailingComma && items != []
    ensures Fine(cfg, Array(items, trailing))
  {
  }

  lemma {:induction false} FineObject(cfg: Config, members: seq<Member>, trailing: bool)
    requires forall m :: m in members ==> Decode(m.key).Some? && Fine(cfg, m.value)
    requires trailing ==> cfg.trailingComma && members != []
    ensures Fine(cfg, Object(members, trailing))
  {
    hide Decode;
  }

  lemma {:induction false} SoundItems(cfg: Config, ts: seq<Tok>, i: nat, d: int, acc: seq<Value>)
    returns (items: seq<Syntax>, trailing: bool)
    requires i <= |ts| && d <= 100 && BuildList(cfg, ts, i, d, acc).Some?
    ensures forall y :: y in items ==> Fine(cfg, y)
    ensures (trailing ==> cfg.trailingComma && items != []) && d + ItemsDepth(items) <= 100
    ensures Stands(ts, i, ItemsSpelled(items, trailing))
    ensures BuildList(cfg, ts, i, d, acc).value == Parsed(List(acc + ItemsMeaning(cfg, items)), i + |ItemsSpelled(items, trailing)|)
    ensures i < |ts| && (ts[i] != TRBracket ==> items != [])
    decreases |ts| - i, 1
  {
    hide BuildValue, BuildList, AfterItem, Spelled, Meaning, Depth, Fine, Ending, Stands;
    ListBegins(cfg, ts, i, d, acc);
    if ts[i] == TRBracket {
      items, trailing := [], false;
      One(ts, i, TRBracket);
      NoItems(cfg, ts, i, d, false, acc);
      assert acc + [] == acc;
    } else {
      ListStep(cfg, ts, i, d, acc);
      var x := Sound(cfg, ts, i, d);
      var m, v := i + |Spelled(x)|, Meaning(cfg, x);
      trailing := AfterIs(cfg, ts, m, TRBracket, [], v);
      var a := AfterItem(cfg, ts, m, TRBracket, [], v).value;
      if a.last {
        items := [x];
        Parts(ts, i, Spelled(x), Ending(TRBracket, trailing));
        assert items[1..] == [] && [v] + [] == [v];
      } else {
        var rest;
        rest, trailing := SoundItems(cfg, ts, m + 1, d, acc + [v]);
        items := [x] + rest;
        assert items[1..] == rest;
        One(ts, m, TComma);
        Parts(ts, m, [TComma], ItemsSpelled(rest, trailing));
        Parts(ts, i, Spelled(x), [TComma] + ItemsSpelled(rest, trailing));
        Assoc(acc, v, ItemsMeaning(cfg, rest));
      }
    }
  }

  lemma {:induction false} ListBegins(cfg: Config, ts: seq<Tok>, i: nat, d: int, acc: seq<Value>)
    requires i <= |ts| && BuildList(cfg, ts, i, d, acc).Some?
    ensures i < |ts|
  {
    hide AfterItem;
  }

  lemma {:induction false} DictBegins(cfg: Config, ts: seq<Tok>, i: nat, d: int, acc: seq<Entry>)
    requires i <= |ts| && BuildDict(cfg, ts, i, d, acc).Some?
    ensures i < |ts| && (ts[i] == TRBrace || (i + 1 < |ts| && ts[i].TStr? && ts[i + 1] == TColon && Decode(ts[i].body).Some?))
  {
    hide AfterItem, Decode, BuildValue;
  }

  lemma {:induction false} SoundMembers(cfg: Config, ts: seq<Tok>, i: nat, d: int, acc: seq<Entry>)
    returns (members: seq<Member>, trailing: bool)
    requires i <= |ts| && d <= 100 && BuildDict(cfg, ts, i, d, acc).Some?
    ensures (forall m :: m in members ==> Decode(m.key).Some? && Fine(cfg, m.value))
    ensures (trailing ==> cfg.trailingComma && members != []) && d + MembersDepth(members) <= 100
    ensures Stands(ts, i, MembersSpelled(members, trailing))
    ensures BuildDict(cfg, ts, i, d, acc).value == Parsed(Dict(Entered(cfg, members, acc)), i + |MembersSpelled(members, trailing)|)
    ensures i < |ts| && (ts[i] != TRBrace ==> members != [])
    decreases |ts| - i, 1
  {
    hide BuildValue, BuildDict, AfterItem, Spelled, Meaning, Depth, Fine, Ending, Stands, Decode, Put;
    DictBegins(cfg, ts, i, d, acc);
    if ts[i] == TRBrace {
      members, trailing := [], false;
      One(ts, i, TRBrace);
      NoMembers(cfg, ts, i, d, false, acc);
    } else {
      DictStep(cfg, ts, i, d, acc);
      var x := Sound(cfg, ts, i + 2, d);
      var key, m, v := Decode(ts[i].body).value, i + 2 + |Spelled(x)|, Meaning(cfg, x);
      trailing := AfterIs(cfg, ts, m, TRBrace, key, v);
      var a := AfterItem(cfg, ts, m, TRBrace, key, v).value;
      var y := Member(ts[i].body, x);
      KeyStands(ts, i, y.key);
      if a.last {
        members := [y];
        assert members[1..] == [];
        Parts(ts, i + 2, Spelled(x), Ending(TRBrace, trailing));
        Parts(ts, i, [TStr(y.key), TColon], Spelled(x) + Ending(TRBrace, trailing));
      } else {
        var rest;
        rest, trailing := SoundMembers(cfg, ts, m + 1, d, Put(acc, key, v));
        members := [y] + rest;
        assert members[1..] == rest;
        One(ts, m, TComma);
        Parts(ts, m, [TComma], MembersSpelled(rest, trailing));
        Parts(ts, i + 2, Spelled(x), [TComma] + MembersSpelled(rest, trailing));
        Parts(ts, i, [TStr(y.key), TColon], Spelled(x) + ([TComma] + MembersSpelled(rest, trailing)));
      }
    }
  }

  lemma KeyStands(ts: seq<Tok>, i: nat, key: Text)
    requires i + 1 < |ts| && ts[i] == TStr(key) && ts[i + 1] == TColon
    ensures Stands(ts, i, [TStr(key), TColon])
  {
    assert ts[i..i + 2] == [ts[i], ts[i + 1]];
  }

  // BuildValue accepts exactly what the grammar allows up to the stack limit, and answers
  // with its meaning and the position behind it.
  lemma {:induction false} ParserIsGrammar(cfg: Config, ts: seq<Tok>, i: nat, d: int, v: Value, j: nat)
    requires i <= |ts|
    ensures BuildValue(cfg, ts, i, d, false) == Some(Parsed(v, j)) <==>
            exists x :: Fine(cfg, x) && d + Depth(x) <= 100 && Stands(ts, i, Spelled(x))
                        && Meaning(cfg, x) == v && j == i + |Spelled(x)|
  {
    hide BuildValue, Spelled, Meaning, Depth, Fine, Stands;
    if BuildValue(cfg, ts, i, d, false) == Some(Parsed(v, j)) {
      var x := Sound(cfg, ts, i, d);
    }
    if x :| Fine(cfg, x) && d + Depth(x) <= 100 && Stands(ts, i, Spelled(x)) && Meaning(cfg, x) == v && j == i + |Spelled(x)| {
      Complete(cfg, ts, i, d, x);
    }
  }

  // ---------- duplicate keys ----------

  // The value of the last member with the key q.
  function Last(cfg: Config, members: seq<Member>, q: Text): Option<Value>
    requires forall m :: m in members ==> Decode(m.key).Some? && Fine(cfg, m.value)
  {
    if members == [] then None
    else
      var n := |members| - 1;
      if Decode(members[n].key).value == q then Some(Meaning(cfg, members[n].value)) else Last(cfg, members[..n], q)
  }

  lemma {:induction false} LastCons(cfg: Config, m: Member, members: seq<Member>, q: Text)
    requires forall x :: x in [m] + members ==> Decode(x.key).Some? && Fine(cfg, x.value)
    ensures m in [m] + members && forall x :: x in members ==> x in [m] + members
    ensures var r := Last(cfg, members, q);
            Last(cfg, [m] + members, q)
            == if r.Some? then r else if Decode(m.key).value == q then Some(Meaning(cfg, m.value)) else None
    decreases |members|
  {
    hide Decode, Fine, Meaning;
    var all := [m] + members;
    assert all[0] == m;
    if members == [] {
      assert all[..0] == [];
    } else {
      var n := |members| - 1;
      assert all[..n + 1] == [m] + members[..n] && all[n + 1] == members[n];
      LastCons(cfg, m, members[..n], q);
    }
  }

  // A key that an object repeats has its last value, and the entries are in key order.
  lemma {:induction false} LastKeyWins(cfg: Config, members: seq<Member>, acc: seq<Entry>, q: Text)
    requires Ascending(acc) && forall m :: m in members ==> Decode(m.key).Some? && Fine(cfg, m.value)
    ensures var es, r := Entered(cfg, members, acc), Last(cfg, members, q);
            Ascending(es) && Find(es, q) == if r.Some? then r else Find(acc, q)
    decreases |members|
  {
    hide Decode, Fine, Meaning, Find, Put, Ascending;
    if members != [] {
      var m := members[0];
      var key, v := Decode(m.key).value, Meaning(cfg, m.value);
      assert members == [m] + members[1..];
      LastCons(cfg, m, members[1..], q);
      PutAscending(acc, key, v);
      FindPut(acc, key, v, q);
      LastKeyWins(cfg, members[1..], Put(acc, key, v), q);
    }
  }
}
