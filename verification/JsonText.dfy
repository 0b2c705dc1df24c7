/** JSON texts with their characters written out: what a string literal spells, what white
    space, comments and the fixed tokens look like, and what is printed.  The functions of
    `JsonLex` and `JsonPrint` are proved to agree with these tables. */
module JsonText {
  import opened Wrappers
  import opened JsonLex
  import opened JsonLayout
  import opened JsonValue
  import opened JsonGrammar
  import opened JsonPrint

  // The character codes of a string.
  function Codes(s: string): (r: Text)
    ensures |r| == |s| && forall i :: 0 <= i < |s| ==> r[i] == s[i] as int
  {
    seq(|s|, i requires 0 <= i < |s| => s[i] as int)
  }

  // ---------- string literals ----------

  // The digit for d, in either case.
  predicate HexDigit(c: Code, d: int) {
    0 <= d < 16 && (c == "0123456789abcdef"[d] as int || c == "0123456789ABCDEF"[d] as int)
  }

  // The letter behind the backslash, and the character it stands for.
  predicate ShortEscape(e: Code, c: Code) {
    || (e == '"' as int && c == '"' as int)
    || (e == '\\' as int && c == '\\' as int)
    || (e == '/' as int && c == '/' as int)
    || (e == 'b' as int && c == 8)
    || (e == 'f' as int && c == 12)
    || (e == 'n' as int && c == '\n' as int)
    || (e == 'r' as int && c == '\r' as int)
    || (e == 't' as int && c == '\t' as int)
    || (e == 'v' as int && c == 11)
  }

  // The text x between the quotes stands for the one character c.
  predicate SpellsOne(x: Text, c: Code) {
    || (|x| == 1 && x[0] == c && c != '"' as int && c != '\\' as int)
    || (|x| == 2 && x[0] == '\\' as int && ShortEscape(x[1], c))
    || (|x| == 4 && x[..2] == Codes("\\x") && HexDigit(x[2], c / 16) && HexDigit(x[3], c % 16))
    || (|x| == 6 && x[..2] == Codes("\\u") && HexDigit(x[2], c / 4096) && HexDigit(x[3], c / 256 % 16)
          && HexDigit(x[4], c / 16 % 16) && HexDigit(x[5], c % 16))
  }

  // The text b between the quotes stands for the string t.
  ghost predicate Spells(b: Text, t: Text)
    decreases |t|
  {
    if t == [] then b == []
    else exists n :: 0 < n <= |b| && SpellsOne(b[..n], t[0]) && Spells(b[n..], t[1..])
  }

  lemma HexDigitIs(c: Code, d: int)
    ensures HexDigit(c, d) <==> IsHex(c) && HexToInt(c) == d
  {
    assert "0123456789abcdef"[0] == '0' && "0123456789abcdef"[15] == 'f';
    assert HexDigit(c, d) ==> IsHex(c);
  }

  lemma SecondCode(b: Text)
    requires |b| >= 2
    ensures Next(b[1..]) == b[1]
  {
  }

  lemma EscapeSpells(b: Text)
    requires b != [] && b[0] == '\\' as int && EscapeLen(b) > 0
    ensures SpellsOne(b[..EscapeLen(b)], Unescape(b))
  {
    hide HexToInt, HexDigit, IsHex;
    SecondCode(b);
    if b[1] == 'x' as int {
      TwoSpell(b);
    } else if b[1] == 'u' as int {
      FourSpell(b);
    }
  }

  lemma TwoSpell(b: Text)
    requires |b| >= 4 && b[0] == '\\' as int && b[1] == 'x' as int && IsHex(b[2]) && IsHex(b[3])
    ensures SpellsOne(b[..4], 16 * HexToInt(b[2]) + HexToInt(b[3]))
  {
    hide HexToInt, HexDigit, IsHex;
    HexDigitIs(b[2], HexToInt(b[2]));
    HexDigitIs(b[3], HexToInt(b[3]));
    LowDigit(16 * HexToInt(b[2]) + HexToInt(b[3]), HexToInt(b[2]), HexToInt(b[3]));
    assert b[..4][..2] == Codes("\\x");
  }

  lemma FourSpell(b: Text)
    requires |b| >= 6 && b[0] == '\\' as int && b[1] == 'u' as int
    requires IsHex(b[2]) && IsHex(b[3]) && IsHex(b[4]) && IsHex(b[5])
    ensures SpellsOne(b[..6], 4096 * HexToInt(b[2]) + 256 * HexToInt(b[3]) + 16 * HexToInt(b[4]) + HexToInt(b[5]))
  {
    hide HexToInt, HexDigit, IsHex;
    FourDigits(HexToInt(b[2]), HexToInt(b[3]), HexToInt(b[4]), HexToInt(b[5]));
    HexDigitIs(b[2], HexToInt(b[2]));
    HexDigitIs(b[3], HexToInt(b[3]));
    HexDigitIs(b[4], HexToInt(b[4]));
    HexDigitIs(b[5], HexToInt(b[5]));
    assert b[..6][..2] == Codes("\\u");
  }

  lemma FourDigits(a: int, b: int, c: int, d: int)
    requires 0 <= a < 16 && 0 <= b < 16 && 0 <= c < 16 && 0 <= d < 16
    ensures var n := 4096 * a + 256 * b + 16 * c + d;
            n / 4096 == a && n / 256 % 16 == b && n / 16 % 16 == c && n % 16 == d
  {
    var n := 4096 * a + 256 * b + 16 * c + d;
    LowDigit(n, 256 * a + 16 * b + c, d);
    LowDigit(256 * a + 16 * b + c, 16 * a + b, c);
    LowDigit(16 * a + b, a, b);
    DivTwice(n);
  }

  lemma FourAgain(n: int)
    ensures 4096 * (n / 4096) + 256 * (n / 256 % 16) + 16 * (n / 16 % 16) + n % 16 == n
  {
    DivTwice(n);
  }

  lemma LowDigit(n: int, q: int, d: int)
    requires n == 16 * q + d && 0 <= d < 16
    ensures n / 16 == q && n % 16 == d
  {
  }

  lemma DivTwice(n: int)
    ensures n / 256 == n / 16 / 16 && n / 4096 == n / 16 / 16 / 16
  {
    var a := n / 16;
    var b := a / 16;
    var c := b / 16;
    assert n == 256 * b + (16 * (a % 16) + n % 16);
    assert n == 4096 * c + (256 * (b % 16) + 16 * (a % 16) + n % 16);
  }

  lemma EscapeOnly(b: Text, n: nat, c: Code)
    requires 0 < n <= |b| && b[0] == '\\' as int && SpellsOne(b[..n], c)
    ensures EscapeLen(b) == n && Unescape(b) == c
  {
    hide HexToInt, HexDigit, IsHex;
    SecondCode(b);
    var x := b[..n];
    if n > 2 {
      assert x[2] == b[2] && x[3] == b[3] && x[..2][1] == b[1];
      HexDigitIs(b[2], if n == 4 then c / 16 else c / 4096);
      HexDigitIs(b[3], if n == 4 then c % 16 else c / 256 % 16);
    }
    if n == 4 {
      TwoAgain(c, HexToInt(b[2]), HexToInt(b[3]));
    }
    if n == 6 {
      HexDigitIs(b[4], c / 16 % 16);
      HexDigitIs(b[5], c % 16);
      FourAgain(c);
    }
  }

  lemma TwoAgain(n: int, a: int, b: int)
    requires a == n / 16 && b == n % 16
    ensures 16 * a + b == n
  {
  }

  lemma {:induction false} DecodesSpelled(b: Text, t: Text)
    requires Spells(b, t)
    ensures ValidBody(b) && Decode(b) == Some(t)
    decreases |t|
  {
    hide EscapeLen, Unescape, SpellsOne;
    if t != [] {
      var n :| 0 < n <= |b| && SpellsOne(b[..n], t[0]) && Spells(b[n..], t[1..]);
      DecodesSpelled(b[n..], t[1..]);
      HeadOnly(b, n, t[0]);
      assert t == [t[0]] + t[1..];
    }
  }

  lemma HeadOnly(b: Text, n: nat, c: Code)
    requires 0 < n <= |b| && SpellsOne(b[..n], c)
    ensures b[0] != QUOTE
    ensures if b[0] == BACKSLASH then EscapeLen(b) == n && Unescape(b) == c else n == 1 && b[0] == c
  {
    hide EscapeLen, Unescape, HexDigit;
    assert n > 2 ==> b[..n][..2][0] == BACKSLASH;
    if b[0] == BACKSLASH {
      EscapeOnly(b, n, c);
    }
  }

  lemma {:induction false} SpelledDecodes(b: Text)
    requires ValidBody(b) && Decode(b).Some?
    ensures Spells(b, Decode(b).value)
    decreases |b|
  {
    if b != [] {
      var k := if b[0] == BACKSLASH then EscapeLen(b) else 1;
      SpelledDecodes(b[k..]);
      if b[0] == '\\' as int {
        EscapeSpells(b);
      }
      var t := Decode(b).value;
      assert t[1..] == Decode(b[k..]).value;
      assert SpellsOne(b[..k], t[0]) && Spells(b[k..], t[1..]);
    }
  }

  // The contents of a string token, decoded: the text between the quotes is valid and
  // decodes to t exactly when it spells t, piece by piece, with the escapes written out.
  lemma StringIff(b: Text, t: Text)
    ensures ValidBody(b) && Decode(b) == Some(t) <==> Spells(b, t)
  {
    if Spells(b, t) {
      DecodesSpelled(b, t);
    } else if ValidBody(b) && Decode(b) == Some(t) {
      SpelledDecodes(b);
    }
  }

  // Every code below 65536 by its four hexadecimal digits, in either case.
  lemma UnicodeEscape(n: nat, digits: Text)
    requires n < 65536 && |digits| == 4
    requires HexDigit(digits[0], n / 4096) && HexDigit(digits[1], n / 256 % 16)
    requires HexDigit(digits[2], n / 16 % 16) && HexDigit(digits[3], n % 16)
    ensures Decode(Codes("\\u") + digits) == Some([n])
  {
    var b := Codes("\\u") + digits;
    assert b[..6] == b && b[..2] == Codes("\\u") && b[6..] == [];
    assert SpellsOne(b[..6], n) && [n][1..] == [];
    StringIff(b, [n]);
  }

  // Every code below 256 by its two.
  lemma ByteEscape(n: nat, digits: Text)
    requires n < 256 && |digits| == 2 && HexDigit(digits[0], n / 16) && HexDigit(digits[1], n % 16)
    ensures Decode(Codes("\\x") + digits) == Some([n])
  {
    var b := Codes("\\x") + digits;
    assert b[..4] == b && b[..2] == Codes("\\x") && b[4..] == [];
    assert SpellsOne(b[..4], n) && [n][1..] == [];
    StringIff(b, [n]);
  }

  // ---------- the fixed tokens ----------

  // The text of every token but a number, written out.
  lemma FixedLexemes(x: Text)
    ensures IsLexeme(x, TNull) <==> x == Codes("null")
    ensures IsLexeme(x, TTrue) <==> x == Codes("true")
    ensures IsLexeme(x, TFalse) <==> x == Codes("false")
    ensures IsLexeme(x, TComma) <==> x == Codes(",")
    ensures IsLexeme(x, TColon) <==> x == Codes(":")
    ensures IsLexeme(x, TLBrace) <==> x == Codes("{")
    ensures IsLexeme(x, TRBrace) <==> x == Codes("}")
    ensures IsLexeme(x, TLBracket) <==> x == Codes("[")
    ensures IsLexeme(x, TRBracket) <==> x == Codes("]")
  {
    assert Codes("null") == NULL_WORD && Codes("true") == TRUE_WORD && Codes("false") == FALSE_WORD;
  }

  // A string token is a quoted text that spells something.
  lemma StringLexeme(x: Text, b: Text)
    ensures IsLexeme(x, TStr(b)) <==> x == Codes("\"") + b + Codes("\"") && exists t :: Spells(b, t)
  {
    hide Decode, Spells, ValidBody;
    assert Codes("\"") == [QUOTE];
    if ValidBody(b) {
      ValidBodyDecodes(b);
      StringIff(b, Decode(b).value);
    }
    if t :| Spells(b, t) {
      StringIff(b, t);
    }
  }

  // ---------- white space and comments ----------

  predicate IsBlank(c: Code) {
    c == ' ' as int || c == '\t' as int || c == '\n' as int || c == '\r' as int
  }

  predicate EndsLine(c: Code) {
    c == '\n' as int || c == '\r' as int
  }

  // "//" up to the first line end, or "/*" up to the first "*/" behind it.
  predicate IsComment(c: Text) {
    || (|c| >= 3 && c[..2] == Codes("//") && EndsLine(c[|c| - 1]) && forall i :: 2 <= i < |c| - 1 ==> !EndsLine(c[i]))
    || (|c| >= 4 && c[..2] == Codes("/*") && c[|c| - 2..] == Codes("*/")
          && forall i :: 2 <= i < |c| - 2 ==> !(c[i] == '*' as int && c[i + 1] == '/' as int))
  }

  ghost predicate IsLayout(w: Text)
    decreases |w|
  {
    || w == []
    || (IsBlank(w[0]) && IsLayout(w[1..]))
    || exists n :: 0 < n <= |w| && IsComment(w[..n]) && IsLayout(w[n..])
  }

  lemma {:induction false} LineIff(t: Text)
    requires t != [] && IsEol(t[|t| - 1])
    ensures LineLen(t) == |t| <==> forall i :: 0 <= i < |t| - 1 ==> !IsEol(t[i])
  {
    if |t| > 1 {
      LineIff(t[1..]);
      assert forall i :: 0 < i < |t| - 1 ==> t[1..][i - 1] == t[i];
    }
  }

  lemma {:induction false} BlockIff(t: Text)
    requires |t| >= 2 && t[|t| - 2] == STAR && t[|t| - 1] == SLASH
    ensures BlockLen(t) == |t| <==> forall i :: 0 <= i < |t| - 2 ==> !(t[i] == STAR && t[i + 1] == SLASH)
  {
    if |t| > 2 {
      BlockIff(t[1..]);
      assert forall i :: 0 < i < |t| - 2 ==> t[1..][i - 1] == t[i];
    }
  }

  lemma PairIs(c: Text, s: string)
    requires |c| >= 2 && |s| == 2
    ensures c[..2] == Codes(s) <==> c[0] == s[0] as int && c[1] == s[1] as int
    ensures c[|c| - 2..] == Codes(s) <==> c[|c| - 2] == s[0] as int && c[|c| - 1] == s[1] as int
  {
    assert c[..2] == [c[0], c[1]] && c[|c| - 2..] == [c[|c| - 2], c[|c| - 1]];
  }

  lemma CommentIff(c: Text)
    ensures ClosedComment(c) <==> IsComment(c)
  {
    hide LineLen, BlockLen, Codes;
    if |c| >= 3 {
      PairIs(c, "//");
      PairIs(c, "/*");
      PairIs(c, "*/");
      var t := c[2..];
      assert forall i :: 2 <= i < |c| ==> t[i - 2] == c[i];
      assert forall i :: 0 <= i < |t| ==> t[i] == c[i + 2];
      if c[1] == SLASH && IsEol(c[|c| - 1]) {
        LineIff(t);
      } else if c[1] == STAR && |c| >= 4 && c[|c| - 2] == STAR && c[|c| - 1] == SLASH {
        BlockIff(t);
      }
    }
  }

  // What the parser skips whole is white space and complete comments, written out.
  lemma {:induction false} LayoutIff(w: Text)
    ensures IsFiller(w) <==> IsLayout(w)
    decreases |w|
  {
    hide CommentLen, ClosedComment, IsComment;
    if w != [] {
      NoBlankComment(w);
      if IsSpace(w[0]) {
        LayoutIff(w[1..]);
      } else {
        if IsFiller(w) {
          CommentIff(w[..CommentLen(w)]);
          LayoutIff(w[CommentLen(w)..]);
        }
        if n :| 0 < n <= |w| && IsComment(w[..n]) && IsLayout(w[n..]) {
          CommentIff(w[..n]);
          CommentClosed(w[..n], w[n..]);
          assert w[..n] + w[n..] == w;
          LayoutIff(w[n..]);
        }
      }
    }
  }

  lemma NoBlankComment(w: Text)
    requires w != []
    ensures IsSpace(w[0]) <==> IsBlank(w[0])
    ensures IsSpace(w[0]) ==> forall n :: 0 < n <= |w| ==> !IsComment(w[..n])
  {
    if IsSpace(w[0]) {
      forall n | 0 < n <= |w|
        ensures !IsComment(w[..n])
      {
        assert n >= 2 ==> w[..n][..2][0] == w[0];
      }
    }
  }

  lemma {:induction false} OpenLine(t: Text)
    requires forall i :: 0 <= i < |t| ==> !IsEol(t[i])
    ensures LineLen(t) == |t|
  {
    if t != [] {
      OpenLine(t[1..]);
    }
  }

  lemma {:induction false} OpenBlock(t: Text)
    requires forall i :: 0 <= i < |t| - 1 ==> !(t[i] == STAR && t[i + 1] == SLASH)
    ensures BlockLen(t) == |t|
  {
    if t != [] {
      OpenBlock(t[1..]);
    }
  }

  // A comment that does not end hides the rest of the text and is no error.
  lemma UnclosedComment(c: Text)
    requires |c| >= 2
    requires || (c[..2] == Codes("//") && forall i :: 2 <= i < |c| ==> !EndsLine(c[i]))
             || (c[..2] == Codes("/*") && forall i :: 2 <= i < |c| - 1 ==> !(c[i] == '*' as int && c[i + 1] == '/' as int))
    ensures Toks(c) == []
  {
    hide Codes, LineLen, BlockLen, Toks, WsLen;
    PairIs(c, "//");
    PairIs(c, "/*");
    var t := c[2..];
    assert forall i :: 0 <= i < |t| ==> t[i] == c[i + 2];
    if c[1] == SLASH {
      OpenLine(t);
    } else {
      OpenBlock(t);
    }
    AllSkipped(c);
  }

  lemma AllSkipped(c: Text)
    requires c != [] && !IsSpace(c[0]) && CommentLen(c) == |c|
    ensures Toks(c) == []
  {
    hide CommentLen;
    assert c[|c|..] == [];
    assert WsLen(c) == |c|;
  }

  // ---------- numbers and the root ----------

  function Power(b: nat, n: nat): nat {
    if n == 0 then 1 else b * Power(b, n - 1)
  }

  // Digits count in tens, the first one most.
  lemma {:induction false} PlaceValue(d: Code, t: Text)
    ensures DigitsValue([d] + t) == (d - '0' as int) * Power(10, |t|) + DigitsValue(t)
    decreases |t|
  {
    var n := |t|;
    if n == 0 {
      assert [d] + t == [d] && [d][..0] == [];
    } else {
      var u, e := t[..n - 1], t[n - 1];
      PlaceValue(d, u);
      assert ([d] + t)[..n] == [d] + u && ([d] + t)[n] == e;
      Distribute(d - '0' as int, Power(10, n - 1), DigitsValue(u), e);
      hide DigitsValue, Power;
    }
  }

  lemma Distribute(d: int, p: int, v: int, e: int)
    ensures 10 * (d * p + v) + (e - 48) == d * (10 * p) + (10 * v + (e - 48))
  {
  }

  predicate AllDigits(t: Text) {
    t != [] && forall i :: 0 <= i < |t| ==> '0' as int <= t[i] <= '9' as int
  }

  // A number by its four parts: minus, int, frac and exp of section 2.4 of RFC 4627.
  predicate NumberParts(m: Text, i: Text, f: Text, e: Text) {
    && (m == [] || m == Codes("-"))
    && AllDigits(i) && (i[0] == '0' as int ==> |i| == 1)
    && IsFrac(f) && IsExp(e)
  }

  predicate IsFrac(f: Text) {
    f == [] || (f[0] == '.' as int && AllDigits(f[1..]))
  }

  predicate IsExp(e: Text) {
    e == [] || ((e[0] == 'e' as int || e[0] == 'E' as int)
      && (AllDigits(e[1..]) || (|e| > 1 && (e[1] == '+' as int || e[1] == '-' as int) && AllDigits(e[2..]))))
  }

  ghost predicate NumberText(t: Text) {
    exists m, i, f, e :: t == m + i + f + e && NumberParts(m, i, f, e)
  }

  lemma SplitParts(t: Text, a: nat, b: nat)
    requires NumberSplit(t, a, b)
    ensures NumberText(t)
  {
    hide NumberParts;
    var k := if Next(t) == MINUS then 1 else 0;
    assert t == t[..k] + t[k..a] + t[a..b] + t[b..];
    MinusAndInt(t, a, b);
    FracPart(t, a, b);
    ExpPart(t, a, b);
    PartsTogether(t[..k], t[k..a], t[a..b], t[b..]);
  }

  lemma PartsTogether(m: Text, i: Text, f: Text, e: Text)
    requires (m == [] || m == Codes("-")) && AllDigits(i) && (i[0] == '0' as int ==> |i| == 1) && IsFrac(f) && IsExp(e)
    ensures NumberParts(m, i, f, e)
  {
  }

  lemma MinusAndInt(t: Text, a: nat, b: nat)
    requires NumberSplit(t, a, b)
    ensures var k := if Next(t) == MINUS then 1 else 0;
            && k < a <= |t| && (t[..k] == [] || t[..k] == Codes("-"))
            && AllDigits(t[k..a]) && (t[k..a][0] == '0' as int ==> |t[k..a]| == 1)
  {
    var k := if Next(t) == MINUS then 1 else 0;
    assert k == 1 ==> t[..k] == Codes("-");
  }

  lemma FracPart(t: Text, a: nat, b: nat)
    requires NumberSplit(t, a, b)
    ensures a <= b <= |t| && IsFrac(t[a..b])
  {
    assert a < b ==> t[a..b][1..] == t[a + 1..b];
  }

  lemma ExpPart(t: Text, a: nat, b: nat)
    requires NumberSplit(t, a, b)
    ensures b <= |t| && IsExp(t[b..])
  {
    var e := t[b..];
    if b < |t| {
      assert e[1..] == t[b + 1..];
      if b + 1 < |t| && IsSign(t[b + 1]) {
        assert e[2..] == t[b + 2..] && e[1] == t[b + 1];
      }
    }
  }

  lemma PartsSplit(m: Text, i: Text, f: Text, e: Text)
    requires NumberParts(m, i, f, e)
    ensures NumberSplit(m + i + f + e, |m| + |i|, |m| + |i| + |f|)
  {
    var t, a, b := m + i + f + e, |m| + |i|, |m| + |i| + |f|;
    assert t[0] == if m == [] then i[0] else m[0];
    assert forall j :: |m| <= j < a ==> t[j] == i[j - |m|];
    assert forall j :: a <= j < b ==> t[j] == f[j - a];
    assert forall j :: b <= j < |t| ==> t[j] == e[j - b];
    assert forall j :: a < j < b ==> t[j] == f[1..][j - a - 1];
    assert forall j :: b < j < |t| ==> t[j] == e[1..][j - b - 1];
    assert forall j :: b + 1 < j < |t| ==> t[j] == e[2..][j - b - 2];
  }

  // The numbers of the lexical level are those of the standard, written out.
  lemma NumberIff(t: Text)
    ensures IsNumber(t) <==> NumberText(t)
  {
    hide NumberSplit, NumberParts;
    if a: nat, b: nat :| NumberSplit(t, a, b) {
      SplitParts(t, a, b);
    }
    if m, i, f, e :| t == m + i + f + e && NumberParts(m, i, f, e) {
      PartsSplit(m, i, f, e);
    }
  }

  // A number token becomes a 64-bit integer when it is a whole number in range, else a
  // real when it is a finite one, else the text is refused.
  lemma NumberDecodes(cfg: Config, t: Text)
    requires IsNumber(t)
    ensures t != []
    ensures var m := if t[0] == '-' as int then 1 else 0;
            var n := if m == 1 then -DigitsValue(t[1..]) else DigitsValue(t);
            DecodeNumber(cfg, t)
            == if (forall i :: m <= i < |t| ==> '0' as int <= t[i] <= '9' as int)
                  && -9223372036854775808 <= n <= 9223372036854775807 then Some(Int64(n))
               else if cfg.isReal(t) then Some(Real(t))
               else None
  {
    hide DigitsValue;
    NumberStarts(t);
    var a: nat, b: nat :| NumberSplit(t, a, b);
  }

  // At the root only a list or a dictionary is accepted; apart from that it is read like
  // any other value.
  lemma RootIsBracketed(cfg: Config, ts: seq<Tok>, i: nat, d: int)
    requires i <= |ts|
    ensures BuildValue(cfg, ts, i, d, true)
         == if i < |ts| && (ts[i] == TLBrace || ts[i] == TLBracket) then BuildValue(cfg, ts, i, d, false) else None
  {
    hide BuildList, BuildDict;
  }

  // ---------- printed texts ----------

  // What is printed for one character of a string.
  lemma PrintedCharacters()
    ensures EscapeChar('"' as int) == Codes("\\\"") && EscapeChar('\\' as int) == Codes("\\\\")
    ensures EscapeChar('\n' as int) == Codes("\\n") && EscapeChar('\r' as int) == Codes("\\r")
    ensures EscapeChar('\t' as int) == Codes("\\t")
    ensures EscapeChar(8) == Codes("\\b") && EscapeChar(12) == Codes("\\f")
    ensures forall c: Code :: c !in Codes("\"\\\n\r\t") && c != 8 && c != 12 ==> EscapeChar(c) == [c]
  {
    var s := Codes("\"\\\n\r\t");
    assert s[0] in s && s[1] in s && s[2] in s && s[3] in s && s[4] in s;
  }

  // The parts with the separator between them.
  function Join(parts: seq<Text>, sep: Text): Text {
    if parts == [] then [] else if |parts| == 1 then parts[0] else parts[0] + sep + Join(parts[1..], sep)
  }

  function Spaces(n: nat): Text {
    seq(n, i => ' ' as int)
  }

  // The printed elements of a list.
  function ItemTexts(items: seq<Value>, depth: nat, pretty: bool): seq<Text>
    requires forall x :: x in items ==> Printable(x)
  {
    if items == [] then [] else [Print(items[0], depth, pretty)] + ItemTexts(items[1..], depth, pretty)
  }

  // The printed entries of a dictionary.
  function EntryTexts(es: seq<Entry>, depth: nat, pretty: bool, indent: Text, colon: Text): seq<Text>
    requires forall e :: e in es ==> Printable(e.value)
  {
    if es == [] then []
    else
      [indent + Quoted(es[0].key) + colon + Print(es[0].value, depth + 1, pretty)]
      + EntryTexts(es[1..], depth, pretty, indent, colon)
  }

  lemma {:induction false} ItemsJoined(items: seq<Value>, depth: nat, pretty: bool)
    requires forall x :: x in items ==> Printable(x)
    ensures PrintItems(items, depth, pretty) == Join(ItemTexts(items, depth, pretty), if pretty then Codes(", ") else Codes(","))
  {
    hide Print, Printable;
    assert Codes(", ") == [COMMA] + [SPACE] && Codes(",") == [COMMA] + [];
    if items != [] {
      ItemsJoined(items[1..], depth, pretty);
      var x, xs := Print(items[0], depth, pretty), ItemTexts(items[1..], depth, pretty);
      assert ([x] + xs)[1..] == xs && (xs == [] <==> items[1..] == []);
    }
  }

  lemma {:induction false} IndentIsSpaces(n: nat)
    ensures Indent(n) == Spaces(3 * n)
  {
    if n > 0 {
      IndentIsSpaces(n - 1);
      assert [SPACE, SPACE, SPACE] + Spaces(3 * n - 3) == Spaces(3 * n);
    }
  }

  lemma EntryJoined(e: Entry, depth: nat, pretty: bool)
    requires Printable(e.value)
    ensures PrintEntry(e, depth, pretty)
         == (if pretty then Spaces(3 * depth + 3) else []) + Quoted(e.key)
            + (if pretty then Codes(": ") else Codes(":")) + Print(e.value, depth + 1, pretty)
  {
    hide Print, Printable, Quoted, Indent, Spaces;
    IndentIsSpaces(depth + 1);
    assert 3 * (depth + 1) == 3 * depth + 3;
    var a, q, v := Pretty(pretty, Indent(depth + 1)), Quoted(e.key), Print(e.value, depth + 1, pretty);
    assert a + q + [COLON] + Pretty(pretty, [SPACE]) == a + q + ([COLON] + Pretty(pretty, [SPACE]));
    assert Codes(": ") == [COLON] + [SPACE] && Codes(":") == [COLON] + [];
  }

  lemma {:induction false} EntriesJoined(es: seq<Entry>, depth: nat, pretty: bool)
    requires forall e :: e in es ==> Printable(e.value)
    ensures PrintEntries(es, depth, pretty)
         == Join(EntryTexts(es, depth, pretty, if pretty then Spaces(3 * depth + 3) else [],
                            if pretty then Codes(": ") else Codes(":")),
                 if pretty then Codes(",\n") else Codes(","))
  {
    hide Print, Printable, PrintEntry, Quoted, Spaces;
    assert Codes(",\n") == [COMMA] + [LF] && Codes(",") == [COMMA] + [];
    if es != [] {
      EntryJoined(es[0], depth, pretty);
      EntriesJoined(es[1..], depth, pretty);
      var indent, colon := if pretty then Spaces(3 * depth + 3) else [], if pretty then Codes(": ") else Codes(":");
      var x, xs := PrintEntry(es[0], depth, pretty), EntryTexts(es[1..], depth, pretty, indent, colon);
      assert ([x] + xs)[1..] == xs && (xs == [] <==> es[1..] == []);
    }
  }

  // A printed list, in both forms.
  lemma PrintedList(items: seq<Value>, depth: nat)
    requires Printable(List(items))
    ensures Print(List(items), depth, false) == Codes("[") + Join(ItemTexts(items, depth, false), Codes(",")) + Codes("]")
    ensures Print(List(items), depth, true) == Codes("[ ") + Join(ItemTexts(items, depth, true), Codes(", ")) + Codes(" ]")
  {
    hide PrintItems, ItemTexts, Join;
    ItemsJoined(items, depth, false);
    ItemsJoined(items, depth, true);
    assert Codes("[") == [LBRACKET] + [] && Codes("[ ") == [LBRACKET] + [SPACE] && Codes("]") == [RBRACKET];
    Bracketed([LBRACKET], [SPACE], PrintItems(items, depth, true), [SPACE], [RBRACKET]);
    assert Codes(" ]") == [SPACE] + [RBRACKET];
    Bracketed([LBRACKET], [], PrintItems(items, depth, false), [], [RBRACKET]);
    assert [] + [RBRACKET] == [RBRACKET];
  }

  lemma Bracketed(a: Text, b: Text, c: Text, d: Text, e: Text)
    ensures a + b + c + d + e == (a + b) + c + (d + e)
  {
  }

  // A printed dictionary: every entry on its own line, three spaces for each level.
  lemma PrintedDictionary(es: seq<Entry>, depth: nat)
    requires Printable(Dict(es))
    ensures Print(Dict(es), depth, false)
         == Codes("{") + Join(EntryTexts(es, depth, false, [], Codes(":")), Codes(",")) + Codes("}")
    ensures Print(Dict(es), depth, true)
         == Codes("{\n") + Join(EntryTexts(es, depth, true, Spaces(3 * depth + 3), Codes(": ")), Codes(",\n"))
            + (Codes("\n") + Spaces(3 * depth) + Codes("}"))
  {
    hide PrintEntries, EntryTexts, Join, Indent, Spaces;
    EntriesJoined(es, depth, false);
    EntriesJoined(es, depth, true);
    IndentIsSpaces(depth);
    assert Codes("{") == [LBRACE] + [] && Codes("{\n") == [LBRACE] + [LF] && Codes("}") == [RBRACE] && Codes("\n") == [LF];
    Bracketed([LBRACE], [LF], PrintEntries(es, depth, true), [LF] + Indent(depth), [RBRACE]);
    Bracketed([LBRACE], [], PrintEntries(es, depth, false), [], [RBRACE]);
    assert [] + [RBRACE] == [RBRACE];
  }

  // Printed scalars; what IntText prints reads back by IntTextReads.
  lemma PrintedScalar(v: Value, depth: nat, pretty: bool)
    requires Printable(v)
    ensures v.Null? ==> Print(v, depth, pretty) == Codes("null")
    ensures v == Bool(true) ==> Print(v, depth, pretty) == Codes("true")
    ensures v == Bool(false) ==> Print(v, depth, pretty) == Codes("false")
    ensures v.Int32? || v.Int64? ==> Print(v, depth, pretty) == if v.i < 0 then Codes("-") + NatText(-v.i) else NatText(v.i)
    ensures v.Str? ==> Print(v, depth, pretty) == Codes("\"") + Escape(v.s) + Codes("\"")
  {
    hide PrintItems, PrintEntries;
    assert Codes("null") == NULL_WORD && Codes("true") == TRUE_WORD && Codes("false") == FALSE_WORD;
    assert Codes("-") == [MINUS] && Codes("\"") == [QUOTE];
  }
}
