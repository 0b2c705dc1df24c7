/** The printer of `json_serializer.cc` as it runs: `BuildJSONString` appends to one
    string, looping over lists, dictionaries and the characters of a string. */
module JsonPrinter {
  import opened Wrappers
  import opened JsonLex
  import opened JsonValue
  import opened JsonGrammar
  import opened JsonPrint
  import opened JsonRoundTrip
  import JsonParser

  // ---------- the text still to be printed inside a loop ----------

  function ItemsFrom(items: seq<Value>, i: nat, depth: nat, pretty: bool): Text
    requires i <= |items| && forall x :: x in items ==> Printable(x)
  {
    if i == |items| then []
    else if i == 0 then PrintItems(items, depth, pretty)
    else [COMMA] + Pretty(pretty, [SPACE]) + PrintItems(items[i..], depth, pretty)
  }

  lemma ItemsFromStep(items: seq<Value>, i: nat, depth: nat, pretty: bool)
    requires i < |items| && forall x :: x in items ==> Printable(x)
    ensures ItemsFrom(items, i, depth, pretty)
         == (if i == 0 then [] else [COMMA] + Pretty(pretty, [SPACE]))
            + (Print(items[i], depth, pretty) + ItemsFrom(items, i + 1, depth, pretty))
  {
    hide Print, Printable;
    assert items[0..] == items;
    PrintItemsFrom(items[i..], depth, pretty);
    assert i + 1 < |items| ==> items[i..][1..] == items[i + 1..];
  }

  lemma PrintItemsFrom(items: seq<Value>, depth: nat, pretty: bool)
    requires items != [] && forall x :: x in items ==> Printable(x)
    ensures PrintItems(items, depth, pretty) == Print(items[0], depth, pretty)
            + if |items| == 1 then [] else [COMMA] + Pretty(pretty, [SPACE]) + PrintItems(items[1..], depth, pretty)
  {
    hide Print, Printable;
  }

  function EntriesFrom(es: seq<Entry>, i: nat, depth: nat, pretty: bool): Text
    requires i <= |es| && forall e :: e in es ==> Printable(e.value)
  {
    if i == |es| then []
    else if i == 0 then PrintEntries(es, depth, pretty)
    else [COMMA] + Pretty(pretty, [LF]) + PrintEntries(es[i..], depth, pretty)
  }

  lemma EntriesFromStep(es: seq<Entry>, i: nat, depth: nat, pretty: bool)
    requires i < |es| && forall e :: e in es ==> Printable(e.value)
    ensures EntriesFrom(es, i, depth, pretty)
         == (if i == 0 then [] else [COMMA] + Pretty(pretty, [LF]))
            + (PrintEntry(es[i], depth, pretty) + EntriesFrom(es, i + 1, depth, pretty))
  {
    hide PrintEntry, Printable;
    assert es[0..] == es;
    PrintEntriesFrom(es[i..], depth, pretty);
    assert i + 1 < |es| ==> es[i..][1..] == es[i + 1..];
  }

  lemma PrintEntriesFrom(es: seq<Entry>, depth: nat, pretty: bool)
    requires es != [] && forall e :: e in es ==> Printable(e.value)
    ensures PrintEntries(es, depth, pretty) == PrintEntry(es[0], depth, pretty)
            + if |es| == 1 then [] else [COMMA] + Pretty(pretty, [LF]) + PrintEntries(es[1..], depth, pretty)
  {
    hide PrintEntry, Printable;
  }

  class Printer {
    const pretty: bool     // pretty_print_
    var json: Text         // *json_string_

    constructor (pretty: bool)
      ensures this.pretty == pretty && json == []
    {
      this.pretty := pretty;
      json := [];
    }

    method Append(t: Text)
      modifies this
      ensures json == old(json) + t
    {
      json := json + t;
    }

    method SingleEscapeChar(c: Code) returns (done: bool)
      modifies this
      ensures done <==> EscapeChar(c) != [c]
      ensures json == if done then old(json) + EscapeChar(c) else old(json)
    {
      done := true;
      if c == BS {
        json := json + [BACKSLASH, 98];
      } else if c == FF {
        json := json + [BACKSLASH, 102];
      } else if c == LF {
        json := json + [BACKSLASH, 110];
      } else if c == CR {
        json := json + [BACKSLASH, 114];
      } else if c == TAB {
        json := json + [BACKSLASH, 116];
      } else if c == BACKSLASH {
        json := json + [BACKSLASH, BACKSLASH];
      } else if c == QUOTE {
        json := json + [BACKSLASH, QUOTE];
      } else {
        done := false;
      }
    }

    // JsonDoubleQuote with put_in_quotes.
    method AppendQuoted(s: Text)
      modifies this
      ensures json == old(json) + Quoted(s)
    {
      json := json + [QUOTE];
      var i := 0;
      assert s[0..] == s;
      while i < |s|
        invariant 0 <= i <= |s|
        invariant json + (Escape(s[i..]) + [QUOTE]) == old(json) + Quoted(s)
      {
        EscapeStep(s, i, json);
        label L:
        var done := SingleEscapeChar(s[i]);
        if !done {
          json := json + [s[i]];
        }
        i := i + 1;
      }
      json := json + [QUOTE];
    }

    method IndentLine(depth: nat)
      modifies this
      ensures json == old(json) + Indent(depth)
    {
      IndentIs(depth);
      json := json + seq(3 * depth, _ => SPACE);
    }

    method BuildJSONString(v: Value, depth: nat)
      requires Printable(v)
      modifies this
      ensures json == old(json) + Print(v, depth, pretty)
      decreases v, 0
    {
      match v {
        case Null => Append(NULL_WORD);
        case Bool(b) => Append(if b then TRUE_WORD else FALSE_WORD);
        case Int32(i) => Append(IntText(i));
        case Int64(i) => Append(IntText(i));
        case Str(s) => AppendQuoted(s);
        case List(items) => BuildList(items, depth);
        case Dict(es) => BuildDictionary(es, depth);
      }
    }

    // The list branch.
    method BuildList(items: seq<Value>, depth: nat)
      requires Printable(List(items))
      modifies this
      ensures json == old(json) + Print(List(items), depth, pretty)
      decreases items, 1
    {
      hide Print, PrintItems, ItemsFrom;
      ListText(items, depth, pretty, json);
      Append([LBRACKET]);
      if pretty {
        Append([SPACE]);
      }
      ghost var start := json;
      var i := 0;
      while i < |items|
        invariant 0 <= i <= |items|
        invariant json + ItemsFrom(items, i, depth, pretty) == start + ItemsFrom(items, 0, depth, pretty)
      {
        ItemText(items, i, depth, pretty, json);
        if i != 0 {
          Append([COMMA]);
          if pretty {
            Append([SPACE]);
          }
        }
        BuildJSONString(items[i], depth);
        i := i + 1;
      }
      NoItemsLeft(items, depth, pretty, json);
      if pretty {
        Append([SPACE]);
      }
      Append([RBRACKET]);
    }

    // The dictionary branch.
    method BuildDictionary(es: seq<Entry>, depth: nat)
      requires Printable(Dict(es))
      modifies this
      ensures json == old(json) + Print(Dict(es), depth, pretty)
      decreases es, 1
    {
      hide Print, PrintEntries, PrintEntry, EntriesFrom, Indent, Quoted;
      DictText(es, depth, pretty, json);
      Append([LBRACE]);
      if pretty {
        Append([LF]);
      }
      ghost var start := json;
      var i := 0;
      while i < |es|
        invariant 0 <= i <= |es|
        invariant json + EntriesFrom(es, i, depth, pretty) == start + EntriesFrom(es, 0, depth, pretty)
      {
        EntryText(es, i, depth, pretty, json);
        if i != 0 {
          Append([COMMA]);
          if pretty {
            Append([LF]);
          }
        }
        if pretty {
          IndentLine(depth + 1);
        }
        AppendQuoted(es[i].key);
        Append(if pretty then [COLON, SPACE] else [COLON]);
        BuildJSONString(es[i].value, depth + 1);
        i := i + 1;
      }
      NoEntriesLeft(es, depth, pretty, json);
      if pretty {
        Append([LF]);
        IndentLine(depth);
      }
      Append([RBRACE]);
    }

    method Serialize(root: Value)
      requires Printable(root)
      modifies this
      ensures json == old(json) + Print(root, 0, pretty)
    {
      BuildJSONString(root, 0);
    }
  }

  // Printing a list or a dictionary and parsing the text gives the tree back, with
  // nothing left over, unless it is deeper than the stack limit; then it gives nothing.
  method Reread(v: Value, pretty: bool, isReal: Text -> bool) returns (r: Option<Value>, atEnd: bool)
    requires Printable(v) && (v.List? || v.Dict?)
    ensures r == if Height(v) <= 100 then Some(Widen(v)) else None
    ensures r.Some? ==> atEnd
  {
    var printer := new Printer(pretty);
    printer.Serialize(v);
    RoundTrip(Config(true, isReal), v, pretty);
    hide Print, BuildValue, Toks, Height, Widen, NulFree;
    assert [] + Print(v, 0, pretty) == Print(v, 0, pretty);
    r, atEnd := JsonParser.Parse(printer.json, isReal);
  }

  lemma DictText(es: seq<Entry>, depth: nat, pretty: bool, json: Text)
    requires Printable(Dict(es))
    ensures json + Print(Dict(es), depth, pretty)
         == (if pretty
             then ((((json + [LBRACE]) + [LF]) + EntriesFrom(es, 0, depth, pretty)) + [LF] + Indent(depth)) + [RBRACE]
             else ((json + [LBRACE]) + EntriesFrom(es, 0, depth, pretty)) + [RBRACE])
  {
    hide PrintEntries, Indent, Less, EntriesFrom;
    FirstEntries(es, depth, pretty);
    var p := EntriesFrom(es, 0, depth, pretty);
    if pretty {
      assert Print(Dict(es), depth, pretty) == [LBRACE] + [LF] + p + ([LF] + Indent(depth)) + [RBRACE];
    } else {
      assert Print(Dict(es), depth, pretty) == [LBRACE] + p + [RBRACE];
    }
  }

  lemma FirstEntries(es: seq<Entry>, depth: nat, pretty: bool)
    requires forall e :: e in es ==> Printable(e.value)
    ensures EntriesFrom(es, 0, depth, pretty) == PrintEntries(es, depth, pretty)
  {
    hide PrintEntry, Printable;
  }

  lemma EntryText(es: seq<Entry>, i: nat, depth: nat, pretty: bool, json: Text)
    requires i < |es| && forall e :: e in es ==> Printable(e.value)
    ensures var j := if i == 0 then json else if pretty then (json + [COMMA]) + [LF] else json + [COMMA];
            var k := (if pretty then j + Indent(depth + 1) else j) + Quoted(es[i].key);
            var l := k + if pretty then [COLON, SPACE] else [COLON];
            json + EntriesFrom(es, i, depth, pretty)
            == (l + Print(es[i].value, depth + 1, pretty)) + EntriesFrom(es, i + 1, depth, pretty)
  {
    hide Print, PrintEntries, PrintEntry, Printable, Indent, Quoted, EntriesFrom;
    EntriesFromStep(es, i, depth, pretty);
    EntryParts(es[i], depth, pretty, if i == 0 then json else if pretty then (json + [COMMA]) + [LF] else json + [COMMA]);
  }

  lemma EntryParts(e: Entry, depth: nat, pretty: bool, j: Text)
    requires Printable(e.value)
    ensures var k := (if pretty then j + Indent(depth + 1) else j) + Quoted(e.key);
            var l := k + if pretty then [COLON, SPACE] else [COLON];
            j + PrintEntry(e, depth, pretty) == l + Print(e.value, depth + 1, pretty)
  {
    hide Print, Printable, Indent, Quoted;
  }

  lemma NoEntriesLeft(es: seq<Entry>, depth: nat, pretty: bool, json: Text)
    requires forall e :: e in es ==> Printable(e.value)
    ensures json + EntriesFrom(es, |es|, depth, pretty) == json
  {
  }

  lemma ListText(items: seq<Value>, depth: nat, pretty: bool, json: Text)
    requires Printable(List(items))
    ensures json + Print(List(items), depth, pretty)
         == (if pretty then ((((json + [LBRACKET]) + [SPACE]) + ItemsFrom(items, 0, depth, pretty)) + [SPACE]) + [RBRACKET]
             else ((json + [LBRACKET]) + ItemsFrom(items, 0, depth, pretty)) + [RBRACKET])
  {
    hide PrintItems;
    assert items == [] ==> PrintItems(items, depth, pretty) == ItemsFrom(items, 0, depth, pretty) by {
      PrintNoItems(depth, pretty);
    }
  }

  lemma PrintNoItems(depth: nat, pretty: bool)
    ensures PrintItems([], depth, pretty) == [] && PrintEntries([], depth, pretty) == []
  {
  }

  lemma ItemText(items: seq<Value>, i: nat, depth: nat, pretty: bool, json: Text)
    requires i < |items| && forall x :: x in items ==> Printable(x)
    ensures var j := if i == 0 then json else if pretty then (json + [COMMA]) + [SPACE] else json + [COMMA];
            json + ItemsFrom(items, i, depth, pretty)
            == (j + Print(items[i], depth, pretty)) + ItemsFrom(items, i + 1, depth, pretty)
  {
    hide Print, PrintItems, Printable, ItemsFrom;
    ItemsFromStep(items, i, depth, pretty);
    var a := if i == 0 then [] else [COMMA] + Pretty(pretty, [SPACE]);
    Regroup(json, a, Print(items[i], depth, pretty), ItemsFrom(items, i + 1, depth, pretty));
    assert pretty ==> (json + [COMMA]) + [SPACE] == json + ([COMMA] + [SPACE]);
    assert json + [] == json && [COMMA] + [] == [COMMA];
  }

  lemma Regroup(a: Text, b: Text, c: Text, d: Text)
    ensures a + (b + (c + d)) == ((a + b) + c) + d
  {
  }

  lemma NoItemsLeft(items: seq<Value>, depth: nat, pretty: bool, json: Text)
    requires forall x :: x in items ==> Printable(x)
    ensures json + ItemsFrom(items, |items|, depth, pretty) == json
  {
  }

  lemma {:induction false} IndentIs(depth: nat)
    ensures Indent(depth) == seq(3 * depth, _ => SPACE)
  {
    if depth > 0 {
      IndentIs(depth - 1);
    }
  }

  lemma EscapeStep(s: Text, i: nat, json: Text)
    requires i < |s|
    ensures json + (Escape(s[i..]) + [QUOTE]) == (json + EscapeChar(s[i])) + (Escape(s[i + 1..]) + [QUOTE])
  {
    assert s[i..][1..] == s[i + 1..];
    hide EscapeChar;
  }
}
