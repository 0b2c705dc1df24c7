/** The recursive-descent parser of `json_serializer.cc` as it runs: one object whose
    position and stack depth are advanced in place.  Each method is proved against the
    function of the lexical level or of the grammar that it computes. */
module JsonParser {
  import opened Wrappers
  import opened JsonLex
  import opened JsonLayout
  import opened JsonValue
  import opened JsonGrammar

  // ---------- suffixes of the text ----------

  lemma Suffix(s: Text, p: nat, n: nat)
    requires p + n <= |s|
    ensures s[p..][n..] == s[p + n..]
    ensures CharAt(s[p..], n) == CharAt(s, p + n)
  {
  }

  // One step of each scanning function, at position p.
  lemma LineStep(s: Text, p: nat)
    requires p <= |s| && NulFree(s)
    ensures LineLen(s[p..]) ==
            if p == |s| then 0 else if s[p] == LF || s[p] == CR then 1 else 1 + LineLen(s[p + 1..])
  {
    if p < |s| {
      Suffix(s, p, 1);
    }
  }

  lemma BlockStep(s: Text, p: nat)
    requires p <= |s| && NulFree(s)
    ensures BlockLen(s[p..]) ==
            if p == |s| then 0
            else if s[p] == STAR && CharAt(s, p + 1) == SLASH then 2
            else 1 + BlockLen(s[p + 1..])
  {
    if p < |s| {
      Suffix(s, p, 1);
    }
  }

  lemma CommentStep(s: Text, p: nat)
    requires p <= |s| && NulFree(s)
    ensures CommentLen(s[p..]) ==
            if CharAt(s, p) == SLASH && CharAt(s, p + 1) == SLASH then 2 + LineLen(s[p + 2..])
            else if CharAt(s, p) == SLASH && CharAt(s, p + 1) == STAR then 2 + BlockLen(s[p + 2..])
            else 0
  {
    if p + 1 < |s| {
      Suffix(s, p, 2);
    }
  }

  lemma WsStep(s: Text, p: nat)
    requires p <= |s| && NulFree(s)
    ensures p + CommentLen(s[p..]) <= |s|
    ensures WsLen(s[p..]) ==
            if p == |s| then 0
            else if IsSpace(s[p]) then 1 + WsLen(s[p + 1..])
            else if CommentLen(s[p..]) > 0 then CommentLen(s[p..]) + WsLen(s[p + CommentLen(s[p..])..])
            else 0
    ensures CommentLen(s[p..]) > 0 ==> CharAt(s, p) == SLASH
  {
    if p < |s| {
      Suffix(s, p, 1);
      Suffix(s, p, CommentLen(s[p..]));
    }
  }

  function Plus(r: Option<nat>, n: nat): Option<nat> {
    match r
    case None => None
    case Some(m) => Some(n + m)
  }

  // BodyLen at position n of a text.
  function BodyAt(t: Text, n: nat): (r: Option<nat>)
    requires n <= |t|
    ensures r.Some? ==> n + r.value < |t|
  {
    BodyLen(t[n..])
  }

  lemma BodyStep(t: Text, n: nat)
    requires n < |t|
    ensures t[n] == QUOTE ==> BodyAt(t, n) == Some(0)
    ensures t[n] == BACKSLASH && EscapeAt(t, n) == 0 ==> BodyAt(t, n) == None
    ensures t[n] == BACKSLASH && EscapeAt(t, n) > 0 ==>
              n + EscapeAt(t, n) <= |t| && BodyAt(t, n) == Plus(BodyAt(t, n + EscapeAt(t, n)), EscapeAt(t, n))
    ensures t[n] != QUOTE && t[n] != BACKSLASH ==> BodyAt(t, n) == Plus(BodyAt(t, n + 1), 1)
  {
    Suffix(t, n, 1);
    if t[n] == BACKSLASH {
      EscapeIsAt(t, n);
      Suffix(t, n, EscapeLen(t[n..]));
      hide EscapeLen, EscapeAt;
    }
  }

  // The length of the escape sequence at position n, 0 when it is not valid.
  function EscapeAt(t: Text, n: nat): nat
    requires n < |t|
  {
    var c := CharAt(t, n + 1);
    if c == 120 && n + 3 < |t| && IsHex(t[n + 2]) && IsHex(t[n + 3]) then 4
    else if c == 117 && n + 5 < |t| && IsHex(t[n + 2]) && IsHex(t[n + 3]) && IsHex(t[n + 4]) && IsHex(t[n + 5]) then 6
    else if IsSimpleEscape(c) then 2
    else 0
  }

  lemma EscapeIsAt(t: Text, n: nat)
    requires n < |t| && t[n] == BACKSLASH
    ensures EscapeLen(t[n..]) == EscapeAt(t, n)
  {
    assert Next(t[n..][1..]) == CharAt(t, n + 1);
  }

  lemma BodyEnds(t: Text, n: nat)
    requires n == |t|
    ensures BodyAt(t, n) == None
  {
  }

  predicate IsTok(t: Lexed, tok: Tok) {
    t.Lexed? && t.tok == tok
  }

  // t is token i of ts, or the end of the input behind its last one.
  ghost predicate Seen(ts: seq<Tok>, i: nat, t: Lexed) {
    if t.End? then i == |ts| else i < |ts| && ts[i] == t.tok
  }

  // t is that token, read at the start of the text u.
  ghost predicate Token(ts: seq<Tok>, i: nat, u: Text, t: Lexed) {
    && Seen(ts, i, t)
    && (t.Lexed? && t.tok != TBad ==>
          0 < t.len <= |u| && At(ts, i + 1, u[t.len..]) && IsLexeme(u[..t.len], t.tok))
  }

  lemma TokenSeen(ts: seq<Tok>, i: nat, u: Text, t: Lexed)
    requires Token(ts, i, u, t)
    ensures Seen(ts, i, t)
  {
  }

  lemma AtInside(ts: seq<Tok>, i: nat, u: Text)
    requires At(ts, i, u)
    ensures i <= |ts|
  {
  }

  // What every method of the grammar promises: it answers as the function g of the
  // grammar does; on success the rest u of the text begins behind the last token.
  ghost predicate Built(r: Option<Value>, g: Option<Parsed>, ts: seq<Tok>, u: Text) {
    match r
    case None => g.None?
    case Some(v) => g.Some? && g.value.v == v && At(ts, g.value.next, u)
  }

  lemma BuiltSome(v: Value, next: nat, ts: seq<Tok>, u: Text)
    requires At(ts, next, u)
    ensures Built(Some(v), Some(Parsed(v, next)), ts, u)
  {
  }

  lemma TokenNext(ts: seq<Tok>, i: nat, u: Text, t: Lexed)
    requires Token(ts, i, u, t) && t.Lexed? && t.tok != TBad
    ensures 0 < t.len <= |u| && At(ts, i + 1, u[t.len..])
  {
    hide At, IsLexeme;
  }

  lemma {:induction false} WsOnce(r: Text)
    ensures WsLen(r[WsLen(r)..]) == 0
    decreases |r|
  {
    if r != [] && IsSpace(r[0]) {
      WsOnce(r[1..]);
      Suffix(r, 1, WsLen(r[1..]));
    } else if CommentLen(r) > 0 {
      WsOnce(r[CommentLen(r)..]);
      Suffix(r, CommentLen(r), WsLen(r[CommentLen(r)..]));
    } else {
      assert r[0..] == r;
    }
  }

  lemma TokenRead(ts: seq<Tok>, i: nat, r: Text)
    requires At(ts, i, r)
    ensures var u := r[WsLen(r)..]; At(ts, i, u) && Token(ts, i, u, LexHere(u))
  {
    WsOnce(r);
    var u := r[WsLen(r)..];
    assert u[0..] == u;
    if LexHere(u).Lexed? && LexHere(u).tok != TBad {
      LexedIsLexeme(u);
    }
    hide LexHere, WsLen, IsLexeme;
    if LexHere(u).Lexed? {
      assert ts[i..][0] == ts[i] && ts[i..][1..] == ts[i + 1..];
    }
  }

  // One round of the array loop.
  lemma ListRound(cfg: Config, ts: seq<Tok>, j: nat, d: int, items: seq<Value>)
    requires j <= |ts| && !(j < |ts| && ts[j].TRBracket?)
    ensures var l, b := BuildList(cfg, ts, j, d, items), BuildValue(cfg, ts, j, d, false);
            if b.None? then l.None? else
              var k, items' := b.value.next, items + [b.value.v];
              if k < |ts| && ts[k] == TRBracket then l == BuildList(cfg, ts, k, d, items')
              else if k < |ts| && ts[k] == TComma then
                if k + 1 < |ts| && ts[k + 1] == TRBracket && !cfg.trailingComma then l.None?
                else l == BuildList(cfg, ts, k + 1, d, items')
              else l.None?
  {
    hide BuildValue;
  }

  lemma ListCloses(cfg: Config, ts: seq<Tok>, j: nat, d: int, items: seq<Value>)
    requires j < |ts| && ts[j] == TRBracket
    ensures BuildList(cfg, ts, j, d, items) == Some(Parsed(List(items), j + 1))
  {
  }

  lemma DictCloses(cfg: Config, ts: seq<Tok>, j: nat, d: int, es: seq<Entry>)
    requires j < |ts| && ts[j] == TRBrace
    ensures BuildDict(cfg, ts, j, d, es) == Some(Parsed(Dict(es), j + 1))
  {
  }

  // What BuildValue makes of a token that is not an opening bracket.
  function ScalarParsed(cfg: Config, tok: Tok, i: nat): Option<Parsed> {
    match tok
    case TNull => Some(Parsed(Null, i + 1))
    case TTrue => Some(Parsed(Bool(true), i + 1))
    case TFalse => Some(Parsed(Bool(false), i + 1))
    case TNum(t) => (match DecodeNumber(cfg, t) case None => None case Some(v) => Some(Parsed(v, i + 1)))
    case TStr(b) => (match Decode(b) case None => None case Some(s) => Some(Parsed(Str(s), i + 1)))
    case _ => None
  }

  // What BuildValue makes of token i, its stack depth being d.
  function TreeAt(cfg: Config, ts: seq<Tok>, i: nat, d: int): (r: Option<Parsed>)
    requires i < |ts|
    ensures r.Some? ==> r.value.next <= |ts|
  {
    if ts[i].TLBracket? then BuildList(cfg, ts, i + 1, d, [])
    else if ts[i].TLBrace? then BuildDict(cfg, ts, i + 1, d, [])
    else ScalarParsed(cfg, ts[i], i)
  }

  // BuildValue accepts token i as the start of a value.
  predicate Starts(ts: seq<Tok>, i: nat, d: int, isRoot: bool) {
    && d + 1 <= STACK_LIMIT && i < |ts| && ts[i] != TBad
    && (isRoot ==> ts[i] == TLBrace || ts[i] == TLBracket)
  }

  lemma ValueIsTree(cfg: Config, ts: seq<Tok>, i: nat, d: int, isRoot: bool)
    requires Starts(ts, i, d, isRoot)
    ensures BuildValue(cfg, ts, i, d, isRoot) == TreeAt(cfg, ts, i, d + 1)
  {
    hide BuildList, BuildDict, DecodeNumber, Decode;
  }

  lemma ValueFails(cfg: Config, ts: seq<Tok>, i: nat, d: int, isRoot: bool, u: Text)
    requires i <= |ts| && !Starts(ts, i, d, isRoot)
    ensures Built(None, BuildValue(cfg, ts, i, d, isRoot), ts, u)
  {
  }

  lemma ScalarHasBody(ts: seq<Tok>, i: nat, u: Text, t: Lexed)
    requires Token(ts, i, u, t) && t.Lexed?
    ensures t.tok.TStr? ==> ValidBody(t.tok.body)
  {
    hide At, ValidBody;
  }

  // One round of the object loop.
  lemma DictRound(cfg: Config, ts: seq<Tok>, j: nat, d: int, es: seq<Entry>)
    requires j <= |ts| && !(j < |ts| && ts[j].TRBrace?)
    ensures var l, key := BuildDict(cfg, ts, j, d, es), KeyAt(ts, j);
            if key.None? then l.None? else
              var b := BuildValue(cfg, ts, j + 2, d, false);
              if b.None? then l.None? else
                var k, es' := b.value.next, Put(es, key.value, b.value.v);
                if k < |ts| && ts[k] == TRBrace then l == BuildDict(cfg, ts, k, d, es')
                else if k < |ts| && ts[k] == TComma then
                  if k + 1 < |ts| && ts[k + 1] == TRBrace && !cfg.trailingComma then l.None?
                  else l == BuildDict(cfg, ts, k + 1, d, es')
                else l.None?
  {
    hide BuildValue, KeyAt, Put;
  }

  class Parser {
    const s: Text          // the text from start_pos_ up to its NUL
    const cfg: Config      // allow_trailing_comma_ and StringToDouble
    var pos: nat           // json_pos_
    var depth: int         // stack_depth_

    constructor (s: Text, cfg: Config)
      requires NulFree(s)
      ensures Valid() && this.s == s && this.cfg == cfg && pos == 0 && depth == 0
    {
      this.s := s;
      this.cfg := cfg;
      pos := 0;
      depth := 0;
    }

    ghost predicate Valid()
      reads this`pos
    {
      pos <= |s| && NulFree(s)
    }

    // The text not yet read.
    ghost function Rest(): Text
      reads this`pos
      requires Valid()
    {
      s[pos..]
    }

    // *json_pos_, moved by n.
    function Char(n: nat): (c: Code)
      reads this`pos
      requires Valid() && pos + n <= |s|
      ensures c == CharAt(Rest(), n) && (c == 0 <==> pos + n == |s|)
    {
      CharAt(s, pos + n)
    }

    // The two loops of EatComment.
    method EatLine()
      requires Valid()
      modifies `pos
      ensures Valid() && pos == old(pos) + LineLen(old(Rest()))
    {
      hide LineLen;
      while Char(0) != 0
        invariant Valid() && old(pos) <= pos && pos + LineLen(s[pos..]) == old(pos) + LineLen(s[old(pos)..])
        decreases |s| - pos
      {
        LineStep(s, pos);
        var c := Char(0);
        pos := pos + 1;
        if c == LF || c == CR {
          return;
        }
      }
      LineStep(s, pos);
    }

    method EatBlock()
      requires Valid()
      modifies `pos
      ensures Valid() && pos == old(pos) + BlockLen(old(Rest()))
    {
      hide BlockLen;
      while Char(0) != 0
        invariant Valid() && old(pos) <= pos && pos + BlockLen(s[pos..]) == old(pos) + BlockLen(s[old(pos)..])
        decreases |s| - pos
      {
        BlockStep(s, pos);
        if Char(0) == STAR && Char(1) == SLASH {
          pos := pos + 2;
          return;
        }
        pos := pos + 1;
      }
      BlockStep(s, pos);
    }

    method EatComment() returns (found: bool)
      requires Valid()
      modifies `pos
      ensures Valid() && pos == old(pos) + CommentLen(old(Rest())) && found == (CommentLen(old(Rest())) > 0)
    {
      CommentStep(s, pos);
      if Char(0) != SLASH {
        return false;
      }
      var next := Char(1);
      hide CommentLen, LineLen, BlockLen;
      if next == SLASH {
        pos := pos + 2;
        EatLine();
      } else if next == STAR {
        pos := pos + 2;
        EatBlock();
      } else {
        return false;
      }
      return true;
    }

    method EatWhitespaceAndComments()
      requires Valid()
      modifies `pos
      ensures Valid() && pos == old(pos) + WsLen(old(Rest()))
    {
      hide CommentLen, WsLen;
      while Char(0) != 0
        invariant Valid() && old(pos) <= pos && pos + WsLen(s[pos..]) == old(pos) + WsLen(s[old(pos)..])
        decreases |s| - pos
      {
        WsStep(s, pos);
        var c := Char(0);
        if IsSpace(c) {
          pos := pos + 1;
        } else if c == SLASH {
          var found := EatComment();
          if !found {
            return;
          }
        } else {
          return;
        }
      }
      WsStep(s, pos);
    }

    method NextStringMatch(w: Text) returns (b: bool)
      requires Valid() && w != []
      ensures b == (w <= Rest())
    {
      var i := 0;
      while i < |w|
        invariant 0 <= i <= |w| && w[..i] <= Rest()
      {
        if Char(0) == 0 {
          return false;
        }
        if !(pos + i < |s|) || Char(i) != w[i] {
          return false;
        }
        i := i + 1;
      }
      return true;
    }

    // The digits of the token behind its first n characters; q is its new length.
    method ReadInt(n: nat, leadingZeros: bool) returns (ok: bool, q: nat)
      requires Valid() && pos + n <= |s|
      ensures pos + n <= pos + q <= |s|
      ensures IntEnd(Rest(), n, leadingZeros) == if ok then Some(q) else None
    {
      var first := Char(n);
      var len := 0;
      q := n;
      var c := first;
      while c != 0 && IsDigit(c)
        invariant n <= q && pos + q <= |s| && len == q - n && c == Char(q)
        invariant DigitsEnd(Rest(), q) == DigitsEnd(Rest(), n)
        decreases |s| - q
      {
        q := q + 1;
        len := len + 1;
        c := Char(q);
      }
      if len == 0 {
        return false, q;
      }
      if !leadingZeros && len > 1 && first == 48 {
        return false, q;
      }
      return true, q;
    }

    // The optional fraction and exponent of ParseNumberToken.
    method ReadFraction(n: nat) returns (ok: bool, q: nat)
      requires Valid() && pos + n <= |s|
      ensures pos + n <= pos + q <= |s|
      ensures FracEnd(Rest(), n) == if ok then Some(q) else None
    {
      ok, q := true, n;
      if Char(n) == DOT {
        ok, q := ReadInt(n + 1, true);
      }
      hide IntEnd;
    }

    method ReadExponent(n: nat) returns (ok: bool, q: nat)
      requires Valid() && pos + n <= |s|
      ensures pos + n <= pos + q <= |s|
      ensures ExpEnd(Rest(), n) == if ok then Some(q) else None
    {
      ok, q := true, n;
      if Char(n) == 101 || Char(n) == 69 {
        var c := Char(n + 1);
        q := n + 1;
        if c == MINUS || c == PLUS {
          q := q + 1;
        }
        ok, q := ReadInt(q, true);
      }
      hide IntEnd;
    }

    method ParseNumberToken() returns (r: Lexed)
      requires Valid()
      ensures r == match NumLen(Rest()) case None => Lexed(TBad, 0) case Some(n) => Lexed(TNum(Rest()[..n]), n)
    {
      var n: nat := 0;
      var ok: bool;
      if Char(0) == MINUS {
        n := 1;
      }
      assert Next(Rest()) == Char(0);
      hide IntEnd, FracEnd, ExpEnd;
      ok, n := ReadInt(n, false);
      if ok {
        ok, n := ReadFraction(n);
      }
      if ok {
        ok, n := ReadExponent(n);
      }
      if !ok {
        return Lexed(TBad, 0);
      }
      r := Lexed(TNum(s[pos..pos + n]), n);
      assert s[pos..pos + n] == Rest()[..n];
    }

    // Whether `digits` hex digits follow the character at n.
    method ReadHexDigits(n: nat, digits: nat) returns (ok: bool)
      requires Valid() && pos + n < |s|
      ensures ok <==> pos + n + digits < |s| && forall i :: n < i <= n + digits ==> IsHex(Rest()[i])
    {
      var i := 1;
      while i <= digits
        invariant 1 <= i <= digits + 1 && pos + n + i <= |s|
        invariant forall j :: n < j < n + i ==> IsHex(Rest()[j])
      {
        var c := Char(n + i);
        if c == 0 {
          return false;
        }
        if !IsHex(c) {
          return false;
        }
        i := i + 1;
      }
      return true;
    }

    // The switch of ParseStringToken behind a backslash at n: the length of the token
    // up to the last character of the escape sequence.
    method ReadEscape(n: nat) returns (ok: bool, q: nat)
      requires Valid() && pos + n < |s|
      ensures ok <==> EscapeAt(Rest(), n) > 0
      ensures ok ==> q + 1 == n + EscapeAt(Rest(), n) && pos + q < |s|
    {
      q := n + 1;
      var c := Char(q);
      if c == 120 {
        ok := ReadHexDigits(q, 2);
        q := q + 2;
      } else if c == 117 {
        ok := ReadHexDigits(q, 4);
        q := q + 4;
      } else {
        ok := IsSimpleEscape(c);
      }
    }

    method ParseStringToken() returns (r: Lexed)
      requires Valid() && Char(0) == QUOTE
      ensures r == match BodyAt(Rest(), 1)
                   case None => Lexed(TBad, 0)
                   case Some(n) => Lexed(TStr(s[pos + 1..pos + 1 + n]), n + 2)
    {
      hide BodyAt, EscapeAt;
      var n: nat := 1;
      var c := Char(n);
      while c != 0
        invariant 1 <= n && pos + n <= |s| && c == Char(n)
        invariant BodyAt(Rest(), 1) == Plus(BodyAt(Rest(), n), n - 1)
        decreases |s| - n
      {
        BodyStep(Rest(), n);
        if c == BACKSLASH {
          var ok;
          ok, n := ReadEscape(n);
          if !ok {
            return Lexed(TBad, 0);
          }
        } else if c == QUOTE {
          return Lexed(TStr(s[pos + 1..pos + n]), n + 1);
        }
        n := n + 1;
        c := Char(n);
      }
      BodyEnds(Rest(), n);
      return Lexed(TBad, 0);
    }

    method ParseToken() returns (t: Lexed)
      requires Valid()
      modifies `pos
      ensures Valid() && pos == old(pos) + WsLen(old(Rest())) && t == LexHere(Rest())
    {
      hide WsLen, LexHere;
      EatWhitespaceAndComments();
      t := TokenHere();
    }

    // The switch of ParseToken.
    method TokenHere() returns (t: Lexed)
      requires Valid()
      ensures t == LexHere(Rest())
    {
      hide NumLen, BodyLen;
      t := Lexed(TBad, 0);
      var c := Char(0);
      var b: bool;
      if c == 0 {
        t := End;
      } else if c == 110 {
        b := NextStringMatch(NULL_WORD);
        if b {
          t := Lexed(TNull, 4);
        }
      } else if c == 116 {
        b := NextStringMatch(TRUE_WORD);
        if b {
          t := Lexed(TTrue, 4);
        }
      } else if c == 102 {
        b := NextStringMatch(FALSE_WORD);
        if b {
          t := Lexed(TFalse, 5);
        }
      } else if c == LBRACKET {
        t := Lexed(TLBracket, 1);
      } else if c == RBRACKET {
        t := Lexed(TRBracket, 1);
      } else if c == COMMA {
        t := Lexed(TComma, 1);
      } else if c == LBRACE {
        t := Lexed(TLBrace, 1);
      } else if c == RBRACE {
        t := Lexed(TRBrace, 1);
      } else if c == COLON {
        t := Lexed(TColon, 1);
      } else if IsDigit(c) || c == MINUS {
        t := ParseNumberToken();
      } else if c == QUOTE {
        t := ParseStringToken();
        TakeBody(s, pos, BodyAt(Rest(), 1));
      }
    }

    // At token i of the token sequence ts.
    ghost predicate Here(ts: seq<Tok>, i: nat)
      reads this`pos
    {
      Valid() && At(ts, i, Rest())
    }

    // ParseToken, seen from the token sequence.
    method Peek(ghost ts: seq<Tok>, ghost i: nat) returns (t: Lexed)
      requires Here(ts, i)
      modifies `pos
      ensures Here(ts, i) && old(pos) <= pos && Token(ts, i, Rest(), t) && Seen(ts, i, t)
    {
      hide WsLen, LexHere, At, Token, Seen;
      ghost var r := Rest();
      t := ParseToken();
      TokenRead(ts, i, r);
      Suffix(s, old(pos), WsLen(r));
      TokenSeen(ts, i, Rest(), t);
    }

    // json_pos_ += token.length.
    method Advance(t: Lexed, ghost ts: seq<Tok>, ghost i: nat)
      requires Here(ts, i) && Token(ts, i, Rest(), t) && t.Lexed? && t.tok != TBad
      modifies `pos
      ensures Here(ts, i + 1) && pos == old(pos) + t.len > old(pos)
    {
      hide At, Token, CharAt;
      TokenNext(ts, i, Rest(), t);
      Suffix(s, pos, t.len);
      assert At(ts, i + 1, s[pos + t.len..]);
      pos := pos + t.len;
    }

    // The array branch of BuildValue, behind its opening bracket.
    method BuildArray(ghost ts: seq<Tok>, ghost i: nat) returns (r: Option<Value>)
      requires Here(ts, i)
      modifies this
      ensures Valid() && old(pos) <= pos && (r.Some? ==> depth == old(depth)) && Built(r, JsonGrammar.BuildList(cfg, ts, i, old(depth), []), ts, Rest())
      decreases STACK_LIMIT - depth, 1
    {
      hide Token, At, JsonGrammar.BuildList, JsonGrammar.BuildValue;
      AtInside(ts, i, Rest());
      ghost var g := JsonGrammar.BuildList(cfg, ts, i, depth, []);
      var items: seq<Value> := [];
      ghost var j := i;
      var t := Peek(ts, j);
      while !IsTok(t, TRBracket)
        invariant Here(ts, j) && Token(ts, j, Rest(), t) && depth == old(depth) && old(pos) <= pos
        invariant Seen(ts, j, t)
        invariant g == JsonGrammar.BuildList(cfg, ts, j, depth, items)
        decreases |ts| - j
      {
        ListRound(cfg, ts, j, depth, items);
        var v := BuildValue(false, ts, j);
        if v.None? {
          return None;
        }
        items := items + [v.value];
        j := JsonGrammar.BuildValue(cfg, ts, j, depth, false).value.next;
        t := Peek(ts, j);
        if IsTok(t, TComma) {
          Advance(t, ts, j);
          j := j + 1;
          t := Peek(ts, j);
          if IsTok(t, TRBracket) {
            if !cfg.trailingComma {
              return None;
            }
            break;
          }
        } else if !IsTok(t, TRBracket) {
          return None;
        }
      }
      if !IsTok(t, TRBracket) {
        return None;
      }
      ListCloses(cfg, ts, j, depth, items);
      Advance(t, ts, j);
      BuiltSome(List(items), j + 1, ts, Rest());
      return Some(List(items));
    }

    // The object branch of BuildValue, behind its opening brace.
    method BuildObject(ghost ts: seq<Tok>, ghost i: nat) returns (r: Option<Value>)
      requires Here(ts, i)
      modifies this
      ensures Valid() && old(pos) <= pos && (r.Some? ==> depth == old(depth)) && Built(r, JsonGrammar.BuildDict(cfg, ts, i, old(depth), []), ts, Rest())
      decreases STACK_LIMIT - depth, 1
    {
      hide Token, At, KeyAt, Put, Toks, JsonGrammar.BuildDict, JsonGrammar.BuildValue, JsonGrammar.BuildList;
      AtInside(ts, i, Rest());
      ghost var g := JsonGrammar.BuildDict(cfg, ts, i, depth, []);
      var es: seq<Entry> := [];
      ghost var j := i;
      var t := Peek(ts, j);
      while !IsTok(t, TRBrace)
        invariant Here(ts, j) && Token(ts, j, Rest(), t) && depth == old(depth) && old(pos) <= pos
        invariant Seen(ts, j, t)
        invariant g == JsonGrammar.BuildDict(cfg, ts, j, depth, es)
        decreases |ts| - j
      {
        DictRound(cfg, ts, j, depth, es);
        var key := ParseKey(t, ts, j);
        if key.None? {
          return None;
        }
        var v := BuildValue(false, ts, j + 2);
        if v.None? {
          return None;
        }
        es := Put(es, key.value, v.value);
        j := JsonGrammar.BuildValue(cfg, ts, j + 2, depth, false).value.next;
        t := Peek(ts, j);
        if IsTok(t, TComma) {
          Advance(t, ts, j);
          j := j + 1;
          t := Peek(ts, j);
          if IsTok(t, TRBrace) {
            if !cfg.trailingComma {
              return None;
            }
            break;
          }
        } else if !IsTok(t, TRBrace) {
          return None;
        }
      }
      if !IsTok(t, TRBrace) {
        return None;
      }
      DictCloses(cfg, ts, j, depth, es);
      Advance(t, ts, j);
      BuiltSome(Dict(es), j + 1, ts, Rest());
      return Some(Dict(es));
    }

    // The key of an object entry and its colon.
    method ParseKey(t0: Lexed, ghost ts: seq<Tok>, ghost j: nat) returns (key: Option<Text>)
      requires Here(ts, j) && Token(ts, j, Rest(), t0)
      modifies `pos
      ensures Valid() && old(pos) <= pos && key == KeyAt(ts, j)
      ensures key.Some? ==> Here(ts, j + 2)
    {
      if !(t0.Lexed? && t0.tok.TStr?) {
        return None;
      }
      key := DecodeString(t0.tok.body);
      if key.None? {
        return None;
      }
      Advance(t0, ts, j);
      var t := Peek(ts, j + 1);
      if !IsTok(t, TColon) {
        return None;
      }
      Advance(t, ts, j + 1);
      var _ := Peek(ts, j + 2);
    }

    method BuildValue(isRoot: bool, ghost ts: seq<Tok>, ghost i: nat) returns (r: Option<Value>)
      requires Here(ts, i)
      modifies this
      ensures Valid() && old(pos) <= pos && (r.Some? ==> depth == old(depth)) && Built(r, JsonGrammar.BuildValue(cfg, ts, i, old(depth), isRoot), ts, Rest())
      decreases STACK_LIMIT - depth, 0
    {
      hide Token, At, Built, JsonGrammar.BuildValue, TreeAt;
      AtInside(ts, i, Rest());
      ghost var d := depth;
      depth := depth + 1;
      if depth > STACK_LIMIT {
        ValueFails(cfg, ts, i, d, isRoot, Rest());
        return None;
      }
      var t := Peek(ts, i);
      if isRoot && !IsTok(t, TLBrace) && !IsTok(t, TLBracket) {
        ValueFails(cfg, ts, i, d, isRoot, Rest());
        return None;
      }
      if t.End? || t.tok == TBad {
        ValueFails(cfg, ts, i, d, isRoot, Rest());
        return None;
      }
      ValueIsTree(cfg, ts, i, d, isRoot);
      r := BuildTree(t, ts, i);
      if r.Some? {
        depth := depth - 1;
      }
    }

    // The switch of BuildValue.
    method BuildTree(t: Lexed, ghost ts: seq<Tok>, ghost i: nat) returns (r: Option<Value>)
      requires Here(ts, i) && Token(ts, i, Rest(), t) && t.Lexed? && t.tok != TBad
      modifies this
      ensures Valid() && old(pos) <= pos && (r.Some? ==> depth == old(depth)) && Built(r, TreeAt(cfg, ts, i, old(depth)), ts, Rest())
      decreases STACK_LIMIT - depth, 2
    {
      hide Token, At, Built, JsonGrammar.BuildList, JsonGrammar.BuildDict, ScalarParsed;
      TokenNext(ts, i, Rest(), t);
      TokenSeen(ts, i, Rest(), t);
      if t.tok.TLBracket? {
        Advance(t, ts, i);
        r := BuildArray(ts, i + 1);
      } else if t.tok.TLBrace? {
        Advance(t, ts, i);
        r := BuildObject(ts, i + 1);
      } else {
        r := BuildScalar(t, ts, i);
      }
    }

    // The branches of BuildValue that are not recursive.
    method BuildScalar(t: Lexed, ghost ts: seq<Tok>, ghost i: nat) returns (r: Option<Value>)
      requires Here(ts, i) && Token(ts, i, Rest(), t) && t.Lexed? && t.tok != TBad
      modifies `pos
      ensures Valid() && old(pos) <= pos && (r.Some? ==> depth == old(depth)) && Built(r, ScalarParsed(cfg, t.tok, i), ts, Rest())
    {
      hide Token, At, DecodeNumber, Decode;
      ScalarHasBody(ts, i, Rest(), t);
      match t.tok {
        case TNull => r := Some(Null);
        case TTrue => r := Some(Bool(true));
        case TFalse => r := Some(Bool(false));
        case TNum(text) => r := DecodeNumber(cfg, text);
        case TStr(body) =>
          var text := DecodeString(body);
          r := match text case None => None case Some(u) => Some(Str(u));
        case _ => r := None;
      }
      if r.Some? {
        Advance(t, ts, i);
        BuiltSome(r.value, i + 1, ts, Rest());
      }
    }
  }

  // DecodeString on the contents of a string token.
  method DecodeString(b: Text) returns (r: Option<Text>)
    requires ValidBody(b)
    ensures r == Decode(b)
  {
    hide Decode, ValidBody, EscapeAt, UnescapeAt, Prefixed;
    var out: Text := [];
    var i := 0;
    assert b[0..] == b && Prefixed(out, Decode(b)) == Decode(b) by {
      PrefixedEmpty(Decode(b));
    }
    while i < |b|
      invariant 0 <= i <= |b| && ValidBody(b[i..]) && Decode(b) == Prefixed(out, Decode(b[i..]))
    {
      DecodeStep(b, i);
      var c := b[i];
      if c == BACKSLASH {
        UnescapeIs(b, i);
        PrefixedMore(out, UnescapeAt(b, i), Decode(b[i + EscapeAt(b, i)..]));
        i := i + 1;
        c := b[i];
        if c == QUOTE || c == SLASH || c == BACKSLASH {
          out := out + [c];
        } else if c == 98 {
          out := out + [BS];
        } else if c == 102 {
          out := out + [FF];
        } else if c == 110 {
          out := out + [LF];
        } else if c == 114 {
          out := out + [CR];
        } else if c == 116 {
          out := out + [TAB];
        } else if c == 118 {
          out := out + [VT];
        } else if c == 120 {
          out := out + [16 * HexToInt(b[i + 1]) + HexToInt(b[i + 2])];
          i := i + 2;
        } else if c == 117 {
          out := out + [4096 * HexToInt(b[i + 1]) + 256 * HexToInt(b[i + 2]) + 16 * HexToInt(b[i + 3]) + HexToInt(b[i + 4])];
          i := i + 4;
        } else {
          return None;
        }
      } else {
        PrefixedMore(out, c, Decode(b[i + 1..]));
        out := out + [c];
      }
      i := i + 1;
    }
    DecodeEnds(b, i);
    return Some(out);
  }

  function Prefixed(t: Text, r: Option<Text>): Option<Text> {
    match r
    case None => None
    case Some(u) => Some(t + u)
  }

  lemma PrefixedEmpty(r: Option<Text>)
    ensures Prefixed([], r) == r
  {
    assert r.Some? ==> [] + r.value == r.value;
  }

  lemma PrefixedMore(t: Text, c: Code, r: Option<Text>)
    ensures Prefixed(t, Prefixed([c], r)) == Prefixed(t + [c], r)
  {
    assert r.Some? ==> t + ([c] + r.value) == (t + [c]) + r.value;
  }

  // What the escape sequence at position i stands for.
  function UnescapeAt(b: Text, i: nat): Code
    requires i < |b| && b[i] == BACKSLASH && EscapeAt(b, i) > 0
  {
    EscapeIsAt(b, i);
    Unescape(b[i..])
  }

  // One step of Decode at position i.
  lemma DecodeStep(b: Text, i: nat)
    requires i < |b| && ValidBody(b[i..])
    ensures b[i] != QUOTE
    ensures b[i] == BACKSLASH ==>
              && 0 < EscapeAt(b, i) <= |b| - i && ValidBody(b[i + EscapeAt(b, i)..])
              && Decode(b[i..]) == Prefixed([UnescapeAt(b, i)], Decode(b[i + EscapeAt(b, i)..]))
    ensures b[i] != BACKSLASH ==> ValidBody(b[i + 1..]) && Decode(b[i..]) == Prefixed([b[i]], Decode(b[i + 1..]))
  {
    Suffix(b, i, 1);
    if b[i] == BACKSLASH {
      EscapeIsAt(b, i);
      Suffix(b, i, EscapeLen(b[i..]));
      hide EscapeLen, EscapeAt, Unescape;
    }
  }

  lemma {:induction false} UnescapeIs(b: Text, i: nat)
    requires i < |b| && b[i] == BACKSLASH && EscapeAt(b, i) > 0
    ensures i + 1 < |b|
    ensures UnescapeAt(b, i) ==
            match b[i + 1]
            case 98 => BS
            case 102 => FF
            case 110 => LF
            case 114 => CR
            case 116 => TAB
            case 118 => VT
            case 120 => 16 * HexToInt(b[i + 2]) + HexToInt(b[i + 3])
            case 117 => 4096 * HexToInt(b[i + 2]) + 256 * HexToInt(b[i + 3]) + 16 * HexToInt(b[i + 4]) + HexToInt(b[i + 5])
            case c => c
    ensures EscapeAt(b, i) == if b[i + 1] == 120 then 4 else if b[i + 1] == 117 then 6 else 2
    ensures b[i + 1] != 120 && b[i + 1] != 117 ==> IsSimpleEscape(b[i + 1])
  {
    EscapeIsAt(b, i);
  }

  lemma DecodeEnds(b: Text, i: nat)
    requires i == |b|
    ensures forall t :: Prefixed(t, Decode(b[i..])) == Some(t)
  {
    assert Decode(b[i..]) == Some([]) && forall t: Text :: t + [] == t;
  }

  lemma TakeBody(s: Text, p: nat, r: Option<nat>)
    requires p < |s| && (r.Some? ==> p + 1 + r.value <= |s|)
    ensures r.Some? ==> s[p + 1..p + 1 + r.value] == s[p..][1..][..r.value]
  {
  }

  // The escapes of one character.
  predicate IsSimpleEscape(c: Code) {
    c == BACKSLASH || c == SLASH || c == 98 || c == 102 || c == 110 || c == 114 || c == 116 || c == 118 || c == QUOTE
  }

  // The entry sketched in Deserialize: stack_depth_ is 0, trailing commas are allowed,
  // the root must be an array or an object.  Some(v) also says whether the text ends
  // behind the root.
  method Parse(s: Text, isReal: Text -> bool) returns (r: Option<Value>, atEnd: bool)
    requires NulFree(s)
    ensures var ts, cfg := Toks(s), Config(true, isReal);
            var g := JsonGrammar.BuildValue(cfg, ts, 0, 0, true);
            && (r.Some? <==> g.Some?)
            && (r.Some? ==> r.value == g.value.v && (atEnd <==> g.value.next == |ts|))
  {
    hide Toks, JsonGrammar.BuildValue;
    var cfg := Config(true, isReal);
    var p := new Parser(s, cfg);
    ghost var ts := Toks(s);
    StartsAt(s);
    assert p.Rest() == s;
    r := p.BuildValue(true, ts, 0);
    atEnd := false;
    if r.Some? {
      var t := p.Peek(ts, JsonGrammar.BuildValue(cfg, ts, 0, 0, true).value.next);
      atEnd := t.End?;
    }
  }

  lemma StartsAt(s: Text)
    ensures At(Toks(s), 0, s)
  {
    assert Toks(s)[0..] == Toks(s);
  }
}
