/** The growable text buffer of `buffer.c`: capacity in pieces of 64 bytes, contents
    ended by a NUL, numbers written digit by digit into the array. */
module TextBuffer {
  import opened Wrappers
  import opened JsonLex
  import opened JsonGrammar
  import opened JsonPrint
  import opened JsonText

  const PIECE: nat := 64        // BUFFER_PIECE_SIZE

  // ---------- decimal ----------

  const LONG_MIN: int := -0x8000_0000_0000_0000
  const LONG_MAX: int := 0x7FFF_FFFF_FFFF_FFFF

  // -val in a long: the negation of LONG_MIN wraps around to itself.
  function Negate(val: int): int {
    if val == LONG_MIN then LONG_MIN else -val
  }

  // The digits of a value; one that is still negative gets the one character
  // '0' + val, cut to a byte.
  function Digits(val: int): (t: Text)
    ensures t != []
  {
    if val < 0 then [(48 + val) % 256] else NatText(val)
  }

  // What LI_ltostr writes: the sign, then the digits of the negated value.
  function LongText(val: int): (t: Text)
    ensures t != [] && (val < 0 ==> t[0] == MINUS && t[1..] == Digits(Negate(val))) && (val >= 0 ==> t == Digits(val))
  {
    if val < 0 then [MINUS] + Digits(Negate(val)) else Digits(val)
  }

  // The text reads back as the value exactly when the value is not LONG_MIN.
  lemma LongTextReadsIff(val: int)
    requires LONG_MIN <= val <= LONG_MAX
    ensures ToInt64(LongText(val)) == Some(val) <==> val != -9223372036854775808
    ensures val == -9223372036854775808 ==> LongText(val) == ['-' as int, '0' as int]
  {
    if val == LONG_MIN {
      assert LongText(val)[1..] == [48] && [48][..0] == [];
      assert DigitsValue([48]) == 0;
    } else {
      IntTextReads(val);
      assert val >= 0 ==> LongText(val) == IntText(val);
    }
  }

  // The decimal digits of n, and how one division shortens them.
  lemma NatTextStep(n: nat)
    requires n > 9
    ensures NatText(n) == NatText(n / 10) + [48 + n % 10]
  {
  }

  lemma NatTextLast(n: nat)
    requires n <= 9
    ensures NatText(n) == [48 + n]
  {
  }

  // a[start..end] holds the last digits of t, last first.
  ghost predicate Backwards(a: array<Code>, start: nat, end: nat, t: Text)
    requires start <= end <= a.Length
    reads a
  {
    end - start <= |t| && forall k :: start <= k < end ==> a[k] == t[start + |t| - 1 - k]
  }

  // LI_ltostr: writes the text of val and a NUL at position `at`.
  method Ltostr(a: array<Code>, at: nat, val: int) returns (len: nat)
    requires LONG_MIN <= val <= LONG_MAX
    requires at + |LongText(val)| < a.Length
    modifies a
    ensures len == |LongText(val)|
    ensures a[at + len] == 0 && forall k :: at <= k < at + len ==> a[k] == LongText(val)[k - at]
    ensures forall k :: 0 <= k < a.Length && !(at <= k <= at + len) ==> a[k] == old(a[k])
  {
    hide LongText, Digits;
    var buf, v := at, val;
    ghost var t := LongText(val);
    if v < 0 {
      a[buf] := MINUS;
      buf := buf + 1;
      v := Negate(v);
      t := t[1..];
    }
    var end := WriteDigits(a, buf, v, t);
    a[end + 1] := 0;
    Reverse(a, buf, end, t);
    len := end + 1 - at;
  }

  // The first loop of LI_ltostr and the last digit.
  method WriteDigits(a: array<Code>, start: nat, val: int, ghost t: Text) returns (end: nat)
    requires t == Digits(val)
    requires start + |t| < a.Length
    modifies a
    ensures end + 1 == start + |t| && Backwards(a, start, end + 1, t)
    ensures forall k :: 0 <= k < a.Length && !(start <= k <= end) ==> a[k] == old(a[k])
  {
    hide NatText;
    var v := val;
    end := start;
    while v > 9
      invariant start <= end <= start + |t| && (val < 0 ==> v == val && end == start)
      invariant val >= 0 ==> v >= 0 && |t| == |NatText(v)| + (end - start) && t[..|NatText(v)|] == NatText(v)
      invariant Backwards(a, start, end, t)
      invariant forall k :: 0 <= k < a.Length && !(start <= k < end) ==> a[k] == old(a[k])
    {
      NatTextStep(v);
      a[end] := 48 + v % 10;
      end := end + 1;
      v := v / 10;
    }
    if v >= 0 {
      NatTextLast(v);
    }
    a[end] := (48 + v) % 256;
  }

  // The second loop of LI_ltostr: the characters at start..end change places.
  method Reverse(a: array<Code>, start: nat, end: nat, ghost t: Text)
    requires start <= end < a.Length && |t| == end + 1 - start && Backwards(a, start, end + 1, t)
    modifies a
    ensures forall k :: start <= k <= end ==> a[k] == t[k - start]
    ensures forall k :: 0 <= k < a.Length && !(start <= k <= end) ==> a[k] == old(a[k])
  {
    var i, j := start, end;
    while i < j
      invariant start <= i <= j + 1 && j <= end && i - start == end - j
      invariant forall k :: start <= k < i || j < k <= end ==> a[k] == t[k - start]
      invariant forall k :: i <= k <= j ==> a[k] == t[end - k]
      invariant forall k :: 0 <= k < a.Length && !(start <= k <= end) ==> a[k] == old(a[k])
    {
      var swap := a[j];
      a[j] := a[i];
      a[i] := swap;
      i := i + 1;
      j := j - 1;
    }
  }

  // ---------- hexadecimal ----------

  // hex_chars.
  function HexChar(d: nat): Code
    requires d < 16
  {
    if d < 10 then 48 + d else 97 + d - 10
  }

  // value >> (4 * k).
  function Shr(value: nat, k: nat): nat {
    if k == 0 then value else Shr(value, k - 1) / 16
  }

  // How often the value can be shifted by four bits before it is 0.
  function Nibbles(value: nat): nat {
    if value == 0 then 0 else 1 + Nibbles(value / 16)
  }

  // At least one digit, and an even number of them.
  function HexCount(value: nat): (n: nat)
    ensures n >= 2 && n % 2 == 0 && Nibbles(value) <= n
  {
    var n := if value == 0 then 1 else Nibbles(value);
    if n % 2 == 1 then n + 1 else n
  }

  // The last n hexadecimal digits of a value.
  function HexDigits(value: nat, n: nat): (t: Text)
    ensures |t| == n
  {
    if n == 0 then [] else HexDigits(value / 16, n - 1) + [HexChar(value % 16)]
  }

  function HexText(value: nat): Text {
    HexDigits(value, HexCount(value))
  }

  // Reading hexadecimal digits.
  function HexValue(t: Text): nat {
    if t == [] then 0 else 16 * HexValue(t[..|t| - 1]) + HexToInt(t[|t| - 1])
  }

  lemma HexCharReads(d: nat)
    requires d < 16
    ensures IsHex(HexChar(d)) && HexToInt(HexChar(d)) == d && HexChar(d) == "0123456789abcdef"[d] as int
  {
  }

  lemma {:induction false} HexDigitsValue(value: nat, n: nat)
    requires Nibbles(value) <= n
    ensures HexValue(HexDigits(value, n)) == value
    ensures forall i :: 0 <= i < n ==> IsHex(HexDigits(value, n)[i])
    decreases n
  {
    hide HexChar, IsHex, HexToInt;
    if n > 0 {
      HexDigitsValue(value / 16, n - 1);
      HexCharReads(value % 16);
      var t := HexDigits(value, n);
      assert t[..n - 1] == HexDigits(value / 16, n - 1);
    }
  }

  lemma {:induction false} NibblesFit(value: nat)
    requires value > 0
    ensures Power(16, Nibbles(value) - 1) <= value
  {
    if value >= 16 {
      NibblesFit(value / 16);
      assert value >= 16 * (value / 16);
    }
  }

  // The printed text is an even number of hexadecimal digits, no more than two of them or
  // than needed, and decodes to the value.
  lemma HexTextDecodes(value: nat)
    ensures |HexText(value)| % 2 == 0 && HexValue(HexText(value)) == value
    ensures |HexText(value)| >= 2 && (|HexText(value)| > 2 ==> Power(16, |HexText(value)| - 2) <= value)
    ensures forall i :: 0 <= i < |HexText(value)| ==> IsHex(HexText(value)[i])
  {
    HexDigitsValue(value, HexCount(value));
    if value > 0 {
      NibblesFit(value);
    }
  }

  lemma {:induction false} ShrShift(value: nat, k: nat)
    ensures Shr(value / 16, k) == Shr(value, k + 1)
  {
    if k > 0 {
      ShrShift(value, k - 1);
    }
  }

  // The digit the loop writes at position i.
  lemma {:induction false} HexDigitAt(value: nat, n: nat, i: nat)
    requires i < n
    ensures HexDigits(value, n)[i] == HexChar(Shr(value, n - 1 - i) % 16)
    decreases n
  {
    if i < n - 1 {
      HexDigitAt(value / 16, n - 1, i);
      ShrShift(value, n - 2 - i);
    }
  }

  // ---------- the buffer ----------

  class Buffer {
    var ptr: array<Code>     // size bytes
    var size: nat
    var used: nat            // the text and its NUL; 0 when nothing was ever appended

    ghost predicate Valid()
      reads this, ptr
    {
      && ptr.Length == size && size % PIECE == 0 && used <= size
      && (used > 0 ==> ptr[used - 1] == 0)
    }

    // The text, without the NUL.
    ghost function Contents(): Text
      reads this, ptr
      requires Valid()
    {
      if used == 0 then [] else ptr[..used - 1]
    }

    // buffer_init.
    constructor ()
      ensures Valid() && Contents() == [] && size == 0 && fresh(ptr)
    {
      ptr := new Code[0];
      size := 0;
      used := 0;
    }

    // buffer_prepare_append: room for n more bytes behind `used`.
    method PrepareAppend(n: nat)
      requires Valid()
      modifies this
      ensures Valid() && Contents() == old(Contents()) && used == old(used)
      ensures used + n <= size && old(size) <= size && (old(size) == 0 ==> n < size)
      ensures ptr == old(ptr) || fresh(ptr)
    {
      if size == 0 {
        size := n + (PIECE - n % PIECE);
        Pieces(n);
        ptr := new Code[size];
        used := 0;
      } else if used + n > size {
        var grown := size + n;
        Pieces(grown);
        grown := grown + (PIECE - grown % PIECE);
        var q := new Code[grown];
        forall i | 0 <= i < size {
          q[i] := ptr[i];
        }
        assert used > 0 ==> q[..used - 1] == ptr[..used - 1];
        ptr := q;
        size := grown;
      }
    }

    // The beginning of every append: room for n bytes, and `used` counts the NUL of an
    // empty text as well.  What follows is written over that NUL.
    method Open(n: nat)
      requires Valid()
      modifies this
      ensures ptr.Length == size && size % PIECE == 0
      ensures used == |old(Contents())| + 1 && used - 1 + n <= size && 0 < size
      ensures forall k :: 0 <= k < used - 1 ==> ptr[k] == old(Contents())[k]
      ensures ptr == old(ptr) || fresh(ptr)
    {
      PrepareAppend(n);
      ghost var c := Contents();
      if used == 0 {
        used := 1;
      }
      assert forall k :: 0 <= k < used - 1 ==> ptr[k] == c[k];
    }

    // buffer_append_string.
    method AppendString(s: Text)
      requires Valid() && NulFree(s)
      modifies this, ptr
      ensures Valid() && Contents() == old(Contents()) + s
      ensures ptr == old(ptr) || fresh(ptr)
    {
      ghost var before := Contents();
      Open(|s| + 1);
      Copy(ptr, used - 1, s + [0]);
      used := used + |s|;
      Appended(ptr, before, s);
    }

    // buffer_append_string_len: nothing happens for an empty range.
    method AppendStringLen(s: Text)
      requires Valid()
      modifies this, ptr
      ensures Valid() && Contents() == old(Contents()) + s
      ensures ptr == old(ptr) || fresh(ptr)
    {
      if |s| == 0 {
        return;
      }
      ghost var before := Contents();
      Open(|s| + 1);
      Copy(ptr, used - 1, s);
      used := used + |s|;
      ptr[used - 1] := 0;
      Appended(ptr, before, s);
    }

    // buffer_append_long.
    method AppendLong(val: int)
      requires Valid() && LONG_MIN <= val <= LONG_MAX
      modifies this, ptr
      ensures Valid() && Contents() == old(Contents()) + LongText(val)
      ensures ptr == old(ptr) || fresh(ptr)
    {
      hide LongText;
      ghost var before := Contents();
      Open(32);
      LongTextFits(val);
      var len := Ltostr(ptr, used - 1, val);
      used := used + len;
      Appended(ptr, before, LongText(val));
    }

    // buffer_append_long_hex.
    method AppendLongHex(value: nat)
      requires Valid()
      modifies this, ptr
      ensures Valid() && Contents() == old(Contents()) + HexText(value)
      ensures ptr == old(ptr) || fresh(ptr)
    {
      ghost var before := Contents();
      var shift := CountHex(value);
      Open(shift + 1);
      WriteHex(ptr, used - 1, value, shift);
      used := used + shift;
      Appended(ptr, before, HexText(value));
    }
  }

  datatype Append = AppendText(s: Text) | AppendPart(s: Text) | AppendNumber(val: int) | AppendHex(value: nat)

  predicate AppendOk(a: Append) {
    match a
    case AppendText(s) => NulFree(s)
    case AppendNumber(val) => LONG_MIN <= val <= LONG_MAX
    case _ => true
  }

  function TextOf(a: Append): Text {
    match a
    case AppendText(s) => s
    case AppendPart(s) => s
    case AppendNumber(val) => LongText(val)
    case AppendHex(value) => HexText(value)
  }

  function Joined(appends: seq<Append>): Text {
    if appends == [] then [] else TextOf(appends[0]) + Joined(appends[1..])
  }

  // After every sequence of appends to an empty buffer, the text is the concatenation
  // of the appended texts, NUL-terminated within a capacity that is a multiple of 64.
  method RunAppends(appends: seq<Append>) returns (b: Buffer)
    requires forall a :: a in appends ==> AppendOk(a)
    ensures fresh(b) && b.Valid() && b.Contents() == Joined(appends)
  {
    hide TextOf, Joined;
    b := new Buffer();
    assert appends[0..] == appends && [] + Joined(appends) == Joined(appends);
    for n := 0 to |appends|
      invariant b.Valid() && fresh(b.ptr) && b.Contents() + Joined(appends[n..]) == Joined(appends)
    {
      JoinedStep(b.Contents(), appends, n);
      Perform(b, appends[n]);
    }
    assert appends[|appends|..] == [];
    NothingJoined(b.Contents());
  }

  lemma JoinedStep(c: Text, appends: seq<Append>, n: nat)
    requires n < |appends|
    ensures c + Joined(appends[n..]) == (c + TextOf(appends[n])) + Joined(appends[n + 1..])
  {
    hide TextOf;
    assert appends[n..][0] == appends[n] && appends[n..][1..] == appends[n + 1..];
    assert c + (TextOf(appends[n]) + Joined(appends[n + 1..])) == (c + TextOf(appends[n])) + Joined(appends[n + 1..]);
  }

  lemma NothingJoined(c: Text)
    ensures c + Joined([]) == c
  {
  }

  method Perform(b: Buffer, a: Append)
    requires b.Valid() && AppendOk(a)
    modifies b, b.ptr
    ensures b.Valid() && b.Contents() == old(b.Contents()) + TextOf(a)
    ensures b.ptr == old(b.ptr) || fresh(b.ptr)
  {
    hide LongText, HexText;
    match a {
      case AppendText(s) => b.AppendString(s);
      case AppendPart(s) => b.AppendStringLen(s);
      case AppendNumber(val) => b.AppendLong(val);
      case AppendHex(value) => b.AppendLongHex(value);
    }
  }

  lemma Appended(a: array<Code>, before: Text, t: Text)
    requires |before| + |t| <= a.Length
    requires forall k :: 0 <= k < |before| ==> a[k] == before[k]
    requires forall k :: |before| <= k < |before| + |t| ==> a[k] == t[k - |before|]
    ensures a[..|before| + |t|] == before + t
  {
  }

  // memcpy.
  method Copy(a: array<Code>, at: nat, s: Text)
    requires at + |s| <= a.Length
    modifies a
    ensures forall k :: at <= k < at + |s| ==> a[k] == s[k - at]
    ensures forall k :: 0 <= k < a.Length && !(at <= k < at + |s|) ==> a[k] == old(a[k])
  {
    forall k | at <= k < at + |s| {
      a[k] := s[k - at];
    }
  }

  // The first loop of buffer_append_long_hex.
  method CountHex(value: nat) returns (shift: nat)
    ensures shift == HexCount(value)
  {
    var copy := value;
    shift := 0;
    while copy != 0
      invariant shift + Nibbles(copy) == Nibbles(value)
      decreases copy
    {
      copy := copy / 16;
      shift := shift + 1;
    }
    if shift == 0 {
      shift := shift + 1;
    }
    if shift % 2 == 1 {
      shift := shift + 1;
    }
  }

  // The second one: the digits from the highest to the lowest, and a NUL.
  method WriteHex(a: array<Code>, at: nat, value: nat, n: nat)
    requires at + n < a.Length
    modifies a
    ensures a[at + n] == 0 && forall k :: at <= k < at + n ==> a[k] == HexDigits(value, n)[k - at]
    ensures forall k :: 0 <= k < a.Length && !(at <= k <= at + n) ==> a[k] == old(a[k])
  {
    hide HexChar, HexDigits, Shr;
    var buf, shift := at, n;
    while shift > 0
      invariant 0 <= shift <= n && buf == at + (n - shift)
      invariant forall k :: at <= k < buf ==> a[k] == HexDigits(value, n)[k - at]
      invariant forall k :: 0 <= k < a.Length && !(at <= k < buf) ==> a[k] == old(a[k])
    {
      shift := shift - 1;
      HexDigitAt(value, n, buf - at);
      a[buf] := HexChar(Shr(value, shift) % 16);
      buf := buf + 1;
    }
    a[buf] := 0;
  }

  lemma Pieces(n: nat)
    ensures (n + (PIECE - n % PIECE)) % PIECE == 0
  {
  }

  // The text of a long is at most twenty characters long.
  lemma LongTextFits(val: int)
    requires LONG_MIN <= val <= LONG_MAX
    ensures |LongText(val)| <= 20
  {
    assert Pow10(2) == 100 && Pow10(4) == 1_0000 && Pow10(6) == 100_0000 && Pow10(8) == 1_0000_0000;
    assert Pow10(10) == 100_0000_0000 && Pow10(12) == 1_0000_0000_0000 && Pow10(14) == 100_0000_0000_0000;
    assert Pow10(16) == 1_0000_0000_0000_0000 && Pow10(18) == 100_0000_0000_0000_0000;
    NatTextFits(if val < 0 then 0 else val, 19);
    NatTextFits(if val < 0 && val != LONG_MIN then -val else 0, 19);
  }

  lemma {:induction false} NatTextFits(n: nat, digits: nat)
    requires digits > 0 && n < Pow10(digits)
    ensures |NatText(n)| <= digits
    decreases digits
  {
    if n >= 10 {
      NatTextFits(n / 10, digits - 1);
    }
  }

  function Pow10(k: nat): nat {
    if k == 0 then 1 else 10 * Pow10(k - 1)
  }
}
