/** What the lexical level promises: number tokens are the numbers of section 2.4 of
    RFC 4627, string tokens always decode, and the token stream of a text depends on
    its lexemes alone, not on the white space and comments between them. */
module JsonLayout {
  import opened Wrappers
  import opened JsonLex

  // ---------- numbers: section 2.4 of RFC 4627 ----------

  predicate Digits(t: Text, p: nat, q: nat) {
    p < q <= |t| && forall i :: p <= i < q ==> IsDigit(t[i])
  }

  predicate IsE(c: Code) {
    c == 101 || c == 69
  }

  predicate IsSign(c: Code) {
    c == MINUS || c == PLUS
  }

  // number = [ minus ] int [ frac ] [ exp ]: int ends at a, frac ends at b.
  predicate NumberSplit(t: Text, a: nat, b: nat) {
    var m := if Next(t) == MINUS then 1 else 0;
    && Digits(t, m, a) && (t[m] == 48 ==> a == m + 1)
    && (a == b || (a < |t| && t[a] == DOT && Digits(t, a + 1, b)))
    && (b == |t| || (b < |t| && IsE(t[b])
          && Digits(t, if b + 1 < |t| && IsSign(t[b + 1]) then b + 2 else b + 1, |t|)))
  }

  ghost predicate IsNumber(t: Text) {
    exists a: nat, b: nat :: NumberSplit(t, a, b)
  }

  // A character that cannot continue a number.
  predicate Stop(c: Code) {
    !(IsDigit(c) || c == DOT || IsE(c))
  }

  predicate Stops(u: Text) {
    u == [] || Stop(u[0])
  }

  lemma DigitsEndAt(s: Text, p: nat, q: nat)
    requires p <= q <= |s|
    requires forall i :: p <= i < q ==> IsDigit(s[i])
    requires q < |s| ==> !IsDigit(s[q])
    ensures DigitsEnd(s, p) == q
  {
  }

  lemma WholeLexes(s: Text, t: Text, a: nat, b: nat)
    requires t <= s && NumberSplit(t, a, b) && (|t| < |s| ==> Stop(s[|t|]))
    ensures IntEnd(s, if Next(t) == MINUS then 1 else 0, false) == Some(a) && Next(s) == Next(t)
  {
    DigitsEndAt(s, if Next(t) == MINUS then 1 else 0, a);
  }

  lemma FracLexes(s: Text, t: Text, a: nat, b: nat)
    requires t <= s && NumberSplit(t, a, b) && (|t| < |s| ==> Stop(s[|t|]))
    ensures FracEnd(s, a) == Some(b)
  {
    if a < b {
      DigitsEndAt(s, a + 1, b);
    }
  }

  lemma ExpLexes(s: Text, t: Text, a: nat, b: nat)
    requires t <= s && NumberSplit(t, a, b) && (|t| < |s| ==> Stop(s[|t|]))
    ensures b <= |s| && ExpEnd(s, b) == Some(|t|)
  {
    if b < |t| {
      DigitsEndAt(s, if b + 1 < |t| && IsSign(t[b + 1]) then b + 2 else b + 1, |t|);
    }
  }

  // In front of u the number t is read whole and no further.
  predicate Ends(t: Text, u: Text) {
    NumLen(t + u) == Some(|t|)
  }

  // Every RFC number followed by a character outside 0-9 . e E is read whole.
  lemma NumberLexes(t: Text, u: Text)
    requires IsNumber(t) && Stops(u)
    ensures Ends(t, u)
  {
    var a: nat, b: nat :| NumberSplit(t, a, b);
    WholeLexes(t + u, t, a, b);
    FracLexes(t + u, t, a, b);
    ExpLexes(t + u, t, a, b);
    hide IntEnd, FracEnd, ExpEnd, NumberSplit;
  }

  // Every number token is an RFC number.
  lemma NumLenIsNumber(s: Text)
    requires NumLen(s).Some?
    ensures IsNumber(s[..NumLen(s).value])
  {
    var a := IntEnd(s, if Next(s) == MINUS then 1 else 0, false).value;
    var b := FracEnd(s, a).value;
    assert NumberSplit(s[..NumLen(s).value], a, b);
  }

  // ---------- strings ----------

  // The contents of a string token: whole escapes, no bare quote, no NUL.
  predicate ValidBody(b: Text)
    decreases |b|
  {
    b != [] ==>
      var k := if b[0] == BACKSLASH then EscapeLen(b) else 1;
      b[0] != QUOTE && k > 0 && ValidBody(b[k..])
  }

  lemma EscapeLocal(a: Text, u: Text)
    requires a != [] && a[0] == BACKSLASH && 0 < EscapeLen(a + u) <= |a|
    ensures EscapeLen(a) == EscapeLen(a + u)
  {
    assert |a| >= 2 && (a + u)[1..][0] == a[1] && a[1..][0] == a[1];
  }

  lemma EscapeExtends(a: Text, u: Text)
    requires a != [] && a[0] == BACKSLASH && EscapeLen(a) > 0
    ensures EscapeLen(a + u) == EscapeLen(a)
  {
    assert |a| >= 2 && (a + u)[1..][0] == a[1] && a[1..][0] == a[1];
  }

  lemma SliceOfSlice(s: Text, k: nat, n: nat)
    requires k + n <= |s|
    ensures s[..k + n][k..] == s[k..][..n]
    ensures s[..k + n] + s[k + n..] == s
  {
  }

  lemma {:induction false} BodyIsValid(s: Text)
    requires BodyLen(s).Some?
    ensures ValidBody(s[..BodyLen(s).value])
    decreases |s|
  {
    if s[0] != QUOTE {
      var k := if s[0] == BACKSLASH then EscapeLen(s) else 1;
      BodyIsValid(s[k..]);
      var n := BodyLen(s[k..]).value;
      var b := s[..k + n];
      SliceOfSlice(s, k, n);
      if s[0] == BACKSLASH {
        EscapeLocal(b, s[k + n..]);
      }
    }
  }

  lemma {:induction false} ValidBodyLexes(b: Text, u: Text)
    requires ValidBody(b)
    ensures BodyLen(b + [QUOTE] + u) == Some(|b|)
    decreases |b|
  {
    var s := b + [QUOTE] + u;
    if b != [] {
      var k := if b[0] == BACKSLASH then EscapeLen(b) else 1;
      if b[0] == BACKSLASH {
        EscapeExtends(b, [QUOTE] + u);
        assert b + ([QUOTE] + u) == s;
      }
      ValidBodyLexes(b[k..], u);
      assert s[0] == b[0];
      assert s[k..] == b[k..] + [QUOTE] + u;
      hide EscapeLen, ValidBody;
    }
  }

  // DecodeString never answers NULL on a string token.
  lemma {:induction false} ValidBodyDecodes(b: Text)
    requires ValidBody(b)
    ensures Decode(b).Some?
    decreases |b|
  {
    if b != [] {
      ValidBodyDecodes(b[if b[0] == BACKSLASH then EscapeLen(b) else 1..]);
    }
  }

  // ---------- lexemes ----------

  // `x` is the text of the token `tok`.
  ghost predicate IsLexeme(x: Text, tok: Tok) {
    match tok
    case TNull => x == NULL_WORD
    case TTrue => x == TRUE_WORD
    case TFalse => x == FALSE_WORD
    case TNum(t) => x == t && IsNumber(t)
    case TStr(b) => x == [QUOTE] + b + [QUOTE] && ValidBody(b)
    case TComma => x == [COMMA]
    case TColon => x == [COLON]
    case TLBrace => x == [LBRACE]
    case TRBrace => x == [RBRACE]
    case TLBracket => x == [LBRACKET]
    case TRBracket => x == [RBRACKET]
    case TBad => false
  }

  lemma NumberStarts(t: Text)
    requires IsNumber(t)
    ensures t != [] && (IsDigit(t[0]) || t[0] == MINUS)
  {
    var a: nat, b: nat :| NumberSplit(t, a, b);
  }

  lemma LexemeLexes(x: Text, tok: Tok, u: Text)
    requires IsLexeme(x, tok) && (tok.TNum? ==> Ends(x, u))
    ensures x != [] && LexHere(x + u) == Lexed(tok, |x|)
  {
    hide NumLen, BodyLen;
    match tok
    case TNum(t) =>
      NumberStarts(t);
      assert (x + u)[..|x|] == x;
    case TStr(b) =>
      ValidBodyLexes(b, u);
      assert (x + u)[1..] == b + [QUOTE] + u;
      assert (b + [QUOTE] + u)[..|b|] == b;
    case TBad =>
    case _ =>
      assert (x + u)[..|x|] == x;
  }

  lemma LexedIsLexeme(s: Text)
    requires LexHere(s).Lexed? && LexHere(s).tok != TBad
    ensures IsLexeme(s[..LexHere(s).len], LexHere(s).tok)
  {
    hide NumLen, BodyLen, IsNumber, ValidBody;
    var tok := LexHere(s).tok;
    match tok
    case TNum(t) => NumLenIsNumber(s);
    case TStr(b) =>
      BodyIsValid(s[1..]);
      QuotedTake(s, |b|);
    case _ =>
  }

  lemma QuotedTake(s: Text, n: nat)
    requires s != [] && s[0] == QUOTE && n < |s[1..]| && s[1..][n] == QUOTE
    ensures s[..n + 2] == [QUOTE] + s[1..][..n] + [QUOTE]
  {
  }

  // ---------- white space and comments ----------

  predicate IsEol(c: Code) {
    c == LF || c == CR
  }

  // A comment that ends inside `c` and not before its end.
  predicate ClosedComment(c: Text) {
    && |c| >= 3 && c[0] == SLASH && CommentLen(c) == |c|
    && if c[1] == SLASH then IsEol(c[|c| - 1]) else |c| >= 4 && c[|c| - 2] == STAR && c[|c| - 1] == SLASH
  }

  // White space and complete comments.
  predicate IsFiller(w: Text)
    decreases |w|
  {
    w != [] ==>
      if IsSpace(w[0]) then IsFiller(w[1..])
      else CommentLen(w) > 0 && ClosedComment(w[..CommentLen(w)]) && IsFiller(w[CommentLen(w)..])
  }

  lemma {:induction false} LineClosed(t: Text, u: Text)
    requires LineLen(t) > 0 && IsEol(t[LineLen(t) - 1])
    ensures LineLen(t + u) == LineLen(t)
  {
    if !IsEol(t[0]) {
      assert (t + u)[1..] == t[1..] + u;
      LineClosed(t[1..], u);
    }
  }

  lemma {:induction false} LineEnds(t: Text)
    requires LineLen(t) < |t|
    ensures LineLen(t) > 0 && IsEol(t[LineLen(t) - 1])
  {
    if !IsEol(t[0]) {
      LineEnds(t[1..]);
    }
  }

  lemma {:induction false} BlockClosed(t: Text, u: Text)
    requires BlockLen(t) >= 2 && t[BlockLen(t) - 2] == STAR && t[BlockLen(t) - 1] == SLASH
    ensures BlockLen(t + u) == BlockLen(t)
  {
    assert (t + u)[1..] == t[1..] + u;
    if !(t[0] == STAR && t[1] == SLASH) && BlockLen(t) > 2 {
      BlockClosed(t[1..], u);
    }
  }

  lemma {:induction false} BlockEnds(t: Text)
    requires BlockLen(t) < |t|
    ensures BlockLen(t) >= 2 && t[BlockLen(t) - 2] == STAR && t[BlockLen(t) - 1] == SLASH
  {
    if !(t[0] == STAR && |t| >= 2 && t[1] == SLASH) {
      BlockEnds(t[1..]);
    }
  }

  lemma CommentClosed(c: Text, u: Text)
    requires ClosedComment(c)
    ensures CommentLen(c + u) == |c|
  {
    assert (c + u)[2..] == c[2..] + u;
    if c[1] == SLASH {
      LineClosed(c[2..], u);
    } else {
      BlockClosed(c[2..], u);
    }
  }

  lemma {:induction false} LineTake(t: Text, k: nat)
    requires LineLen(t) <= k <= |t|
    ensures LineLen(t[..k]) == LineLen(t)
  {
    if t != [] && !IsEol(t[0]) {
      LineTake(t[1..], k - 1);
      assert t[..k][1..] == t[1..][..k - 1];
    }
  }

  lemma {:induction false} BlockTake(t: Text, k: nat)
    requires BlockLen(t) <= k <= |t|
    ensures BlockLen(t[..k]) == BlockLen(t)
  {
    if t != [] && !(t[0] == STAR && |t| >= 2 && t[1] == SLASH) {
      BlockTake(t[1..], k - 1);
      assert t[..k][1..] == t[1..][..k - 1];
    }
  }

  lemma CommentTake(s: Text, k: nat)
    requires CommentLen(s) <= k <= |s| && CommentLen(s) > 0
    ensures CommentLen(s[..k]) == CommentLen(s)
  {
    assert s[..k][2..] == s[2..][..k - 2];
    if s[1] == SLASH {
      LineTake(s[2..], k - 2);
    } else {
      BlockTake(s[2..], k - 2);
    }
  }

  // A comment with text behind it is complete.
  lemma CommentEnds(s: Text)
    requires 0 < CommentLen(s) < |s|
    ensures ClosedComment(s[..CommentLen(s)])
  {
    CommentTake(s, CommentLen(s));
    if s[1] == SLASH {
      LineEnds(s[2..]);
    } else {
      BlockEnds(s[2..]);
    }
  }

  lemma CutThrough(w: Text, k: nat, u: Text)
    requires k <= |w|
    ensures w[..k] + (w[k..] + u) == w + u && (w + u)[k..] == w[k..] + u
  {
  }

  lemma SpaceSkips(w: Text, u: Text)
    requires w != [] && IsSpace(w[0])
    ensures WsLen(w + u) == 1 + WsLen(w[1..] + u)
  {
    assert (w + u)[1..] == w[1..] + u;
  }

  lemma CommentSkips(w: Text, k: nat, u: Text)
    requires 0 < k <= |w| && !IsSpace(w[0]) && ClosedComment(w[..k])
    ensures WsLen(w + u) == k + WsLen(w[k..] + u)
  {
    CommentClosed(w[..k], w[k..] + u);
    CutThrough(w, k, u);
    hide CommentLen;
    assert (w + u)[0] == w[0];
  }

  // Fillers are skipped whole, whatever follows.
  lemma {:induction false} FillerSkips(w: Text, u: Text)
    requires IsFiller(w)
    ensures WsLen(w + u) == |w| + WsLen(u)
    decreases |w|
  {
    hide WsLen, CommentLen, ClosedComment;
    if w == [] {
      assert w + u == u;
    } else if IsSpace(w[0]) {
      SpaceSkips(w, u);
      FillerSkips(w[1..], u);
    } else {
      CommentSkips(w, CommentLen(w), u);
      FillerSkips(w[CommentLen(w)..], u);
    }
  }

  // What is skipped before a token is a filler.
  lemma {:induction false} SkippedIsFiller(s: Text)
    requires WsLen(s) < |s|
    ensures IsFiller(s[..WsLen(s)])
    decreases |s|
  {
    var n := WsLen(s);
    var w := s[..n];
    if n > 0 && IsSpace(s[0]) {
      SkippedIsFiller(s[1..]);
      assert w[1..] == s[1..][..n - 1];
    } else if n > 0 {
      var k := CommentLen(s);
      CommentEnds(s);
      CommentTake(s, n);
      SkippedIsFiller(s[k..]);
      assert w[..k] == s[..k] && w[k..] == s[k..][..n - k];
    }
  }

  // ---------- layouts ----------

  // One lexeme with the filler in front of it.
  datatype Piece = Piece(filler: Text, lexeme: Text, tok: Tok)

  function TextOf(ps: seq<Piece>, tail: Text): Text {
    if ps == [] then tail else ps[0].filler + (ps[0].lexeme + TextOf(ps[1..], tail))
  }

  function TokensOf(ps: seq<Piece>): seq<Tok> {
    if ps == [] then [] else [ps[0].tok] + TokensOf(ps[1..])
  }

  // Fillers are white space and complete comments, and a number ends where the next
  // piece begins; the text behind the last piece may be anything.
  ghost predicate WellLaid(ps: seq<Piece>, tail: Text) {
    ps != [] ==>
      && IsFiller(ps[0].filler) && IsLexeme(ps[0].lexeme, ps[0].tok)
      && (ps[0].tok.TNum? ==> Ends(ps[0].lexeme, TextOf(ps[1..], tail)))
      && WellLaid(ps[1..], tail)
  }

  lemma LexemeIsNoSpace(x: Text, tok: Tok, u: Text)
    requires IsLexeme(x, tok)
    ensures WsLen(x + u) == 0
  {
    if tok.TNum? {
      var a: nat, b: nat :| NumberSplit(x, a, b);
    }
    assert x != [] && !IsSpace(x[0]) && x[0] != SLASH;
    assert CommentLen(x + u) == 0;
  }

  lemma Drop(a: Text, b: Text)
    ensures (a + b)[|a|..] == b
  {
  }

  lemma ToksStep(s: Text, t: Text, tok: Tok, r: Text)
    requires s[WsLen(s)..] == t && LexHere(t).Lexed? && LexHere(t).tok == tok && tok != TBad
    requires t[LexHere(t).len..] == r
    ensures Toks(s) == [tok] + Toks(r)
  {
    hide WsLen, LexHere;
  }

  // One lexeme behind a filler is one token.
  lemma LexemeToks(f: Text, x: Text, tok: Tok, r: Text)
    requires IsFiller(f) && IsLexeme(x, tok) && (tok.TNum? ==> Ends(x, r))
    ensures Toks(f + (x + r)) == [tok] + Toks(r)
  {
    FillerSkips(f, x + r);
    LexemeIsNoSpace(x, tok, r);
    LexemeLexes(x, tok, r);
    Drop(f, x + r);
    Drop(x, r);
    NotBad(x, tok);
    hide *;
    ToksStep(f + (x + r), x + r, tok, r);
  }

  lemma NotBad(x: Text, tok: Tok)
    requires IsLexeme(x, tok)
    ensures tok != TBad
  {
  }

  // The token stream of a layout is its sequence of tokens and whatever the tail has:
  // it does not depend on the fillers.
  lemma {:induction false} LayoutToks(ps: seq<Piece>, tail: Text)
    requires WellLaid(ps, tail)
    ensures Toks(TextOf(ps, tail)) == TokensOf(ps) + Toks(tail)
  {
    hide IsFiller, IsLexeme, Toks, Ends;
    if ps == [] {
      assert TokensOf(ps) + Toks(tail) == Toks(tail);
    } else {
      LayoutToks(ps[1..], tail);
      LexemeToks(ps[0].filler, ps[0].lexeme, ps[0].tok, TextOf(ps[1..], tail));
      assert [ps[0].tok] + (TokensOf(ps[1..]) + Toks(tail)) == TokensOf(ps) + Toks(tail);
    }
  }

  // Two layouts of the same tokens are the same to the parser.
  lemma LayoutIndependence(ps: seq<Piece>, tail: Text, qs: seq<Piece>, tail': Text)
    requires WellLaid(ps, tail) && WellLaid(qs, tail')
    requires TokensOf(ps) + Toks(tail) == TokensOf(qs) + Toks(tail')
    ensures Toks(TextOf(ps, tail)) == Toks(TextOf(qs, tail'))
  {
    LayoutToks(ps, tail);
    LayoutToks(qs, tail');
  }

  // Every text is such a layout, its tail beginning with an invalid token or holding
  // none at all, so that the above speaks about any change of white space and comments
  // between lexemes.
  lemma {:induction false} EveryTextIsALayout(s: Text) returns (ps: seq<Piece>, tail: Text)
    ensures WellLaid(ps, tail) && TextOf(ps, tail) == s && TBad !in TokensOf(ps)
    ensures Toks(tail) == [] || Toks(tail) == [TBad]
    decreases |s|
  {
    var t := s[WsLen(s)..];
    if LexHere(t).End? || LexHere(t).tok == TBad {
      ps, tail := [], s;
    } else {
      var tok, len := LexHere(t).tok, LexHere(t).len;
      var qs;
      qs, tail := EveryTextIsALayout(t[len..]);
      ps := Prepend(s, t, tok, len, qs, tail);
    }
  }

  lemma Prepend(s: Text, t: Text, tok: Tok, len: nat, qs: seq<Piece>, tail: Text) returns (ps: seq<Piece>)
    requires WsLen(s) < |s| && t == s[WsLen(s)..] && LexHere(t) == Lexed(tok, len) && tok != TBad
    requires WellLaid(qs, tail) && TextOf(qs, tail) == t[len..] && TBad !in TokensOf(qs)
    ensures WellLaid(ps, tail) && TextOf(ps, tail) == s && TBad !in TokensOf(ps)
  {
    SkippedIsFiller(s);
    LexedIsLexeme(t);
    Split(t, len);
    Split(s, WsLen(s));
    if tok.TNum? {
      NumberEnds(t);
    }
    ps := [Piece(s[..WsLen(s)], t[..len], tok)] + qs;
    hide IsFiller, IsLexeme, Toks, Ends, LexHere, WsLen;
    assert ps[1..] == qs;
  }

  lemma NumberEnds(t: Text)
    requires LexHere(t).Lexed? && LexHere(t).tok.TNum?
    ensures Ends(t[..LexHere(t).len], t[LexHere(t).len..])
  {
    hide NumLen;
    Split(t, LexHere(t).len);
  }

  lemma Split(s: Text, k: nat)
    requires k <= |s|
    ensures s == s[..k] + s[k..]
  {
  }

  // ---------- positions in the token stream ----------

  // The tokens from i on are those of the text s.
  ghost predicate At(ts: seq<Tok>, i: nat, s: Text) {
    i <= |ts| && ts[i..] == Toks(s)
  }
}
