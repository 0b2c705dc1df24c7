/** `BuildJSONString` of `json_serializer.cc` with the quoting of `string_escape.cc`,
    as functions, and the round trip: reading back what was printed gives the tree. */
module JsonPrint {
  import opened Wrappers
  import opened JsonLex
  import opened JsonLayout
  import opened JsonValue
  import opened JsonGrammar

  // ---------- strings ----------

  // SingleEscapeChar, else the character itself.
  function EscapeChar(c: Code): Text {
    if c == BS then [BACKSLASH, 98]
    else if c == FF then [BACKSLASH, 102]
    else if c == LF then [BACKSLASH, 110]
    else if c == CR then [BACKSLASH, 114]
    else if c == TAB then [BACKSLASH, 116]
    else if c == BACKSLASH then [BACKSLASH, BACKSLASH]
    else if c == QUOTE then [BACKSLASH, QUOTE]
    else [c]
  }

  function Escape(s: Text): Text {
    if s == [] then [] else EscapeChar(s[0]) + Escape(s[1..])
  }

  // JsonDoubleQuoteT with put_in_quotes.
  function Quoted(s: Text): Text {
    [QUOTE] + Escape(s) + [QUOTE]
  }

  lemma EscapedFirst(c: Code, u: Text)
    ensures var e := EscapeChar(c) + u;
            if e[0] == BACKSLASH then EscapeLen(e) == 2 == |EscapeChar(c)| && Unescape(e) == c
            else EscapeChar(c) == [c] && e[0] == c && c != QUOTE
  {
    assert |EscapeChar(c)| == 2 ==> (EscapeChar(c) + u)[1..][0] == EscapeChar(c)[1];
  }

  // Every string escapes to valid contents, which decode to the string.
  lemma {:induction false} EscapeRoundTrip(s: Text)
    ensures ValidBody(Escape(s)) && Decode(Escape(s)) == Some(s)
  {
    if s != [] {
      var e, u := Escape(s), Escape(s[1..]);
      EscapeRoundTrip(s[1..]);
      EscapedFirst(s[0], u);
      assert e[|EscapeChar(s[0])|..] == u;
      hide Escape, EscapeChar, EscapeLen, Unescape;
      assert s == [s[0]] + s[1..];
    }
  }

  // ---------- integers ----------

  // "%d" and "%ld".
  function NatText(n: nat): Text {
    if n < 10 then [48 + n] else NatText(n / 10) + [48 + n % 10]
  }

  function IntText(n: int): Text {
    if n < 0 then [MINUS] + NatText(-n) else NatText(n)
  }

  lemma {:induction false} NatTextValue(n: nat)
    ensures var t := NatText(n);
            t != [] && (forall i :: 0 <= i < |t| ==> IsDigit(t[i])) && DigitsValue(t) == n
            && (t[0] == 48 ==> n == 0 && |t| == 1)
  {
    if n < 10 {
      assert [48 + n][..0] == [];
    } else {
      NatTextValue(n / 10);
      assert NatText(n)[..|NatText(n)| - 1] == NatText(n / 10);
    }
  }

  // A printed integer is an RFC number and reads back as itself.
  lemma IntTextReads(n: int)
    requires INT64_MIN <= n <= INT64_MAX
    ensures IsNumber(IntText(n)) && ToInt64(IntText(n)) == Some(n)
  {
    var t := IntText(n);
    NatTextValue(if n < 0 then -n else n);
    if n < 0 {
      assert t[1..] == NatText(-n);
    }
    assert NumberSplit(t, |t|, |t|);
  }

  // ---------- trees ----------

  // A key that WideToASCII does not change.
  predicate IsAscii(t: Text) {
    forall i :: 0 <= i < |t| ==> t[i] < 128
  }

  // A tree the round trip is about: int32 and int64 values in range, strings without
  // NUL, ASCII keys without NUL and ascending, no floating-point or binary values.
  predicate Printable(v: Value) {
    match v
    case Null => true
    case Bool(_) => true
    case Int32(i) => -0x8000_0000 <= i <= 0x7FFF_FFFF
    case Int64(i) => INT64_MIN <= i <= INT64_MAX
    case Real(_) => false
    case Str(s) => NulFree(s)
    case List(items) => forall x :: x in items ==> Printable(x)
    case Dict(es) =>
      && (forall i, j :: 0 <= i < j < |es| ==> Less(es[i].key, es[j].key))
      && (forall e :: e in es ==> NulFree(e.key) && IsAscii(e.key) && Printable(e.value))
  }

  // What is read back: int32 values have become int64 values.
  function Widen(v: Value): Value {
    match v
    case Int32(i) => Int64(i)
    case List(items) => List(WidenItems(items))
    case Dict(es) => Dict(WidenEntries(es))
    case _ => v
  }

  function WidenItems(items: seq<Value>): (r: seq<Value>)
    ensures |r| == |items|
  {
    if items == [] then [] else [Widen(items[0])] + WidenItems(items[1..])
  }

  function WidenEntries(es: seq<Entry>): (r: seq<Entry>)
    ensures |r| == |es|
    ensures forall i :: 0 <= i < |es| ==> r[i].key == es[i].key
  {
    if es == [] then [] else [Entry(es[0].key, Widen(es[0].value))] + WidenEntries(es[1..])
  }

  function Indent(depth: nat): (r: Text)
    ensures forall i :: 0 <= i < |r| ==> r[i] == SPACE
  {
    if depth == 0 then [] else [SPACE, SPACE, SPACE] + Indent(depth - 1)
  }

  // The text that appears only when pretty-printing.
  function Pretty(pretty: bool, t: Text): Text {
    if pretty then t else []
  }

  // BuildJSONString.
  function Print(v: Value, depth: nat, pretty: bool): Text
    requires Printable(v)
    decreases v, 0
  {
    match v
    case Null => NULL_WORD
    case Bool(b) => if b then TRUE_WORD else FALSE_WORD
    case Int32(i) => IntText(i)
    case Int64(i) => IntText(i)
    case Str(s) => Quoted(s)
    case List(items) =>
      [LBRACKET] + Pretty(pretty, [SPACE]) + PrintItems(items, depth, pretty) + Pretty(pretty, [SPACE]) + [RBRACKET]
    case Dict(es) =>
      [LBRACE] + Pretty(pretty, [LF]) + PrintEntries(es, depth, pretty) + Pretty(pretty, [LF] + Indent(depth)) + [RBRACE]
  }

  function PrintItems(items: seq<Value>, depth: nat, pretty: bool): Text
    requires forall x :: x in items ==> Printable(x)
    decreases items, 1
  {
    if items == [] then []
    else if |items| == 1 then Print(items[0], depth, pretty)
    else Print(items[0], depth, pretty) + [COMMA] + Pretty(pretty, [SPACE]) + PrintItems(items[1..], depth, pretty)
  }

  function PrintEntry(e: Entry, depth: nat, pretty: bool): Text
    requires Printable(e.value)
    decreases e, 1
  {
    Pretty(pretty, Indent(depth + 1)) + Quoted(e.key) + [COLON] + Pretty(pretty, [SPACE]) + Print(e.value, depth + 1, pretty)
  }

  function PrintEntries(es: seq<Entry>, depth: nat, pretty: bool): Text
    requires forall e :: e in es ==> Printable(e.value)
    decreases es, 1
  {
    if es == [] then []
    else if |es| == 1 then PrintEntry(es[0], depth, pretty)
    else PrintEntry(es[0], depth, pretty) + [COMMA] + Pretty(pretty, [LF]) + PrintEntries(es[1..], depth, pretty)
  }
}
