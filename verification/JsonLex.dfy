/** The lexical level of `json_serializer.cc`: white space and comments, numbers,
    strings and the token stream of a text.  A text is a sequence of character codes
    without NUL; the parser sees it followed by a NUL.  Every function is given the
    text from the current position on and answers with a length. */
module JsonLex {
  import opened Wrappers

  type Code = int
  type Text = seq<Code>

  const BS := 8        // \b
  const TAB := 9
  const LF := 10
  const VT := 11       // \v
  const FF := 12
  const CR := 13
  const SPACE := 32
  const QUOTE := 34
  const PLUS := 43
  const COMMA := 44
  const MINUS := 45
  const DOT := 46
  const SLASH := 47
  const STAR := 42
  const COLON := 58
  const LBRACKET := 91
  const BACKSLASH := 92
  const RBRACKET := 93
  const LBRACE := 123
  const RBRACE := 125

  // The character at the current position; NUL at the end.
  function Next(s: Text): Code {
    if s == [] then 0 else s[0]
  }

  predicate NulFree(s: Text) {
    0 !in s
  }

  // ---------- white space and comments ----------

  predicate IsSpace(c: Code) {
    c == SPACE || c == LF || c == CR || c == TAB
  }

  // The rest of a line comment, its line end included.
  function LineLen(s: Text): (n: nat)
    ensures n <= |s|
  {
    if s == [] then 0
    else if s[0] == LF || s[0] == CR then 1
    else 1 + LineLen(s[1..])
  }

  // The rest of a block comment, its closing mark included.
  function BlockLen(s: Text): (n: nat)
    ensures n <= |s|
  {
    if s == [] then 0
    else if s[0] == STAR && |s| >= 2 && s[1] == SLASH then 2
    else 1 + BlockLen(s[1..])
  }

  // EatComment: 0 when there is none.
  function CommentLen(s: Text): (n: nat)
    ensures n <= |s|
  {
    if |s| >= 2 && s[0] == SLASH && s[1] == SLASH then 2 + LineLen(s[2..])
    else if |s| >= 2 && s[0] == SLASH && s[1] == STAR then 2 + BlockLen(s[2..])
    else 0
  }

  // EatWhitesspaceAndComments.
  function WsLen(s: Text): (n: nat)
    ensures n <= |s|
    decreases |s|
  {
    if s == [] then 0
    else if IsSpace(s[0]) then 1 + WsLen(s[1..])
    else if CommentLen(s) > 0 then CommentLen(s) + WsLen(s[CommentLen(s)..])
    else 0
  }

  // ---------- numbers ----------

  predicate IsDigit(c: Code) {
    48 <= c <= 57
  }

  // The end of the run of digits at position p.
  function DigitsEnd(s: Text, p: nat): (q: nat)
    requires p <= |s|
    ensures p <= q <= |s|
    ensures forall i :: p <= i < q ==> IsDigit(s[i])
    ensures q < |s| ==> !IsDigit(s[q])
    decreases |s| - p
  {
    if p < |s| && IsDigit(s[p]) then DigitsEnd(s, p + 1) else p
  }

  // ReadInt at position p: the end of the digits.
  function IntEnd(s: Text, p: nat, leadingZeros: bool): (r: Option<nat>)
    requires p <= |s|
    ensures r.Some? ==> p < r.value <= |s|
  {
    var q := DigitsEnd(s, p);
    if q == p || (!leadingZeros && q > p + 1 && s[p] == 48) then None else Some(q)
  }

  // The character at position p; NUL at the end.
  function CharAt(s: Text, p: nat): Code
    requires p <= |s|
  {
    if p < |s| then s[p] else 0
  }

  // The optional fraction of ParseNumberToken.
  function FracEnd(s: Text, p: nat): (r: Option<nat>)
    requires p <= |s|
    ensures r.Some? ==> p <= r.value <= |s|
  {
    if CharAt(s, p) == DOT then IntEnd(s, p + 1, true) else Some(p)
  }

  // The optional exponent of ParseNumberToken.
  function ExpEnd(s: Text, p: nat): (r: Option<nat>)
    requires p <= |s|
    ensures r.Some? ==> p <= r.value <= |s|
  {
    if CharAt(s, p) == 101 || CharAt(s, p) == 69 then
      var c := CharAt(s, p + 1);
      IntEnd(s, if c == MINUS || c == PLUS then p + 2 else p + 1, true)
    else Some(p)
  }

  // ParseNumberToken at the start of the text.
  function NumLen(s: Text): (r: Option<nat>)
    ensures r.Some? ==> 0 < r.value <= |s|
  {
    match IntEnd(s, if Next(s) == MINUS then 1 else 0, false)
    case None => None
    case Some(a) => match FracEnd(s, a) case None => None case Some(b) => ExpEnd(s, b)
  }

  // ---------- strings ----------

  predicate IsHex(c: Code) {
    48 <= c <= 57 || 97 <= c <= 102 || 65 <= c <= 70
  }

  function HexToInt(c: Code): (n: nat)
    ensures n < 16
  {
    if 48 <= c <= 57 then c - 48
    else if 65 <= c <= 70 then c - 65 + 10
    else if 97 <= c <= 102 then c - 97 + 10
    else 0
  }

  // The length of the escape sequence at a backslash, 0 when it is not valid.
  function EscapeLen(s: Text): (n: nat)
    requires s != [] && s[0] == BACKSLASH
    ensures n <= |s|
  {
    var c := Next(s[1..]);
    if c == 120 then
      if |s| >= 4 && IsHex(s[2]) && IsHex(s[3]) then 4 else 0
    else if c == 117 then
      if |s| >= 6 && IsHex(s[2]) && IsHex(s[3]) && IsHex(s[4]) && IsHex(s[5]) then 6 else 0
    else if c == BACKSLASH || c == SLASH || c == 98 || c == 102 || c == 110 || c == 114 || c == 116 || c == 118 || c == QUOTE then 2
    else 0
  }

  // ParseStringToken behind the opening quote: the length of the contents, the
  // closing quote not included.
  function BodyLen(s: Text): (r: Option<nat>)
    ensures r.Some? ==> r.value < |s| && s[r.value] == QUOTE
    decreases |s|
  {
    if s == [] then None
    else if s[0] == QUOTE then Some(0)
    else
      var k := if s[0] == BACKSLASH then EscapeLen(s) else 1;
      if k == 0 then None
      else match BodyLen(s[k..]) case None => None case Some(n) => Some(k + n)
  }

  // What an escape sequence stands for.
  function Unescape(s: Text): Code
    requires s != [] && s[0] == BACKSLASH && EscapeLen(s) > 0
  {
    match s[1]
    case 98 => BS
    case 102 => FF
    case 110 => LF
    case 114 => CR
    case 116 => TAB
    case 118 => VT
    case 120 => 16 * HexToInt(s[2]) + HexToInt(s[3])
    case 117 => 4096 * HexToInt(s[2]) + 256 * HexToInt(s[3]) + 16 * HexToInt(s[4]) + HexToInt(s[5])
    case c => c
  }

  // DecodeString on the contents of a string token; None is its NULL.
  function Decode(b: Text): (r: Option<Text>)
    decreases |b|
  {
    if b == [] then Some([])
    else
      var k := if b[0] == BACKSLASH then EscapeLen(b) else 1;
      if k == 0 then None
      else match Decode(b[k..])
        case None => None
        case Some(t) => Some([if b[0] == BACKSLASH then Unescape(b) else b[0]] + t)
  }

  // ---------- tokens ----------

  datatype Tok =
    | TNull | TTrue | TFalse
    | TNum(text: Text)      // the token's text
    | TStr(body: Text)      // the text between the quotes
    | TComma | TColon | TLBrace | TRBrace | TLBracket | TRBracket
    | TBad                  // INVALID_TOKEN

  // END_OF_INPUT is the end of the token sequence.
  datatype Lexed = End | Lexed(tok: Tok, len: nat)

  const NULL_WORD: Text := [110, 117, 108, 108]
  const TRUE_WORD: Text := [116, 114, 117, 101]
  const FALSE_WORD: Text := [102, 97, 108, 115, 101]

  // ParseToken behind the white space.
  function LexHere(s: Text): (r: Lexed)
    ensures r.Lexed? ==> r.len <= |s| && (r.tok != TBad ==> r.len > 0)
  {
    if s == [] then End
    else if s[0] == 110 then if NULL_WORD <= s then Lexed(TNull, 4) else Lexed(TBad, 0)
    else if s[0] == 116 then if TRUE_WORD <= s then Lexed(TTrue, 4) else Lexed(TBad, 0)
    else if s[0] == 102 then if FALSE_WORD <= s then Lexed(TFalse, 5) else Lexed(TBad, 0)
    else if s[0] == LBRACKET then Lexed(TLBracket, 1)
    else if s[0] == RBRACKET then Lexed(TRBracket, 1)
    else if s[0] == COMMA then Lexed(TComma, 1)
    else if s[0] == LBRACE then Lexed(TLBrace, 1)
    else if s[0] == RBRACE then Lexed(TRBrace, 1)
    else if s[0] == COLON then Lexed(TColon, 1)
    else if IsDigit(s[0]) || s[0] == MINUS then
      match NumLen(s) case None => Lexed(TBad, 0) case Some(n) => Lexed(TNum(s[..n]), n)
    else if s[0] == QUOTE then
      match BodyLen(s[1..]) case None => Lexed(TBad, 0) case Some(n) => Lexed(TStr(s[1..][..n]), n + 2)
    else Lexed(TBad, 0)
  }

  // The tokens of a text, up to its end or the first invalid one.
  function Toks(s: Text): seq<Tok>
    decreases |s|
  {
    var t := s[WsLen(s)..];
    match LexHere(t)
    case End => []
    case Lexed(tok, len) => if tok == TBad then [TBad] else [tok] + Toks(t[len..])
  }
}
