/** The chat wire codec of `protocol.cc`.  A packet is a head of eight integers, the
    fixed fields of its operation code and, for some codes, a text or a list behind
    them; no length is stored but those in the head, and the reader recovers the length
    of the text or list by subtracting a constant for each code.  Reading undoes writing
    exactly when that constant is right and the whole packet is reported. */
module ChatCodec {
  import opened Wrappers

  type Bytes = seq<int>

  // ---------- integers: two's complement, least significant byte first ----------

  function Encode(n: int, k: nat): (b: Bytes)
    ensures |b| == k
    decreases k
  {
    if k == 0 then [] else [n % 256] + Encode(n / 256, k - 1)
  }

  function Decode(b: Bytes): int {
    if b == [] then 0
    else if |b| == 1 then if b[0] >= 128 then b[0] - 256 else b[0]
    else b[0] + 256 * Decode(b[1..])
  }

  // int8, int16, int32 and int64.
  predicate Fits(n: int, k: nat) {
    || (k == 1 && -0x80 <= n < 0x80)
    || (k == 2 && -0x8000 <= n < 0x8000)
    || (k == 4 && -0x8000_0000 <= n < 0x8000_0000)
    || (k == 8 && -0x8000_0000_0000_0000 <= n < 0x8000_0000_0000_0000)
  }

  // Half the number of values of k bytes.
  function Half(k: nat): (h: int)
    ensures h > 0
  {
    if k <= 1 then 128 else 256 * Half(k - 1)
  }

  lemma {:induction false} DecodeInRange(n: int, k: nat)
    requires k > 0 && -Half(k) <= n < Half(k)
    ensures Decode(Encode(n, k)) == n
    decreases k
  {
    if k > 1 {
      DecodeInRange(n / 256, k - 1);
      assert Encode(n, k)[1..] == Encode(n / 256, k - 1);
    } else {
      assert Encode(n, 1) == [n % 256] + Encode(n / 256, 0);
    }
  }

  lemma DecodeEncode(n: int, k: nat)
    requires Fits(n, k)
    ensures Decode(Encode(n, k)) == n
  {
    hide Decode, Encode;
    assert Half(2) == 0x8000;
    assert Half(4) == 256 * (256 * Half(2));
    assert Half(6) == 256 * (256 * Half(4));
    assert Half(8) == 256 * (256 * Half(6));
    DecodeInRange(n, k);
  }

  // ---------- fields ----------

  const TOKEN_LEN := 32
  const NICKNAME_LEN := 48
  const HEAD_URL_LEN := 256

  // The fields of the packets, by the names they have in comm_head.h.
  datatype FieldName =
    | CurrentTime | DataLength | Device | GroupId | HeadUrl | IsZip | MsgId | MsgType | MultiId | MultiType
    | NetType | NickNumber | Nickname | OperateCode | OppoId | OppoNickNumber | OppoNickname | OppoType
    | OppoUserHead | OppostionId | PacketLength | PlatformId | PrivateMsgId | RecvUserId | Reserverd
    | SendNickname | SendUserId | Session | SessionId | Token | Type | UserHead | UserId | UserNicknumber
    | UserType

  // An integer of some bytes; a character array, whose last byte the reader sets to
  // NUL; a character array it leaves as it is.
  datatype Kind = Int(bytes: nat) | Chars(len: nat) | Raw(len: nat)

  datatype Field = Field(name: FieldName, kind: Kind)

  datatype Val = Num(n: int) | Str(s: Bytes)

  datatype Named = Named(name: FieldName, val: Val)

  function Width(k: Kind): nat {
    match k
    case Int(n) => n
    case Chars(n) => n
    case Raw(n) => n
  }

  function WidthOf(fs: seq<Field>): nat {
    if fs == [] then 0 else Width(fs[0].kind) + WidthOf(fs[1..])
  }

  // A value the field can hold: in range, or an array of the field's length, with its
  // NUL where the reader puts one.
  predicate Holds(k: Kind, v: Val) {
    match k
    case Int(n) => v.Num? && Fits(v.n, n)
    case Chars(n) => v.Str? && |v.s| == n > 0 && v.s[n - 1] == 0
    case Raw(n) => v.Str? && |v.s| == n
  }

  // Write8, Write16, Write32, Write64 and WriteData.
  function Write(k: Kind, v: Val): (b: Bytes)
    requires Holds(k, v)
    ensures |b| == Width(k)
  {
    match k
    case Int(n) => Encode(v.n, n)
    case Chars(n) => v.s
    case Raw(n) => v.s
  }

  // Read8, Read16, Read32, Read64, which answer 0 when too few bytes are left, and
  // ReadData with the copy behind it: None when that goes outside the packet.
  function Read(k: Kind, b: Bytes): Option<(Val, Bytes)> {
    match k
    case Int(n) => if |b| < n then Some((Num(0), b)) else Some((Num(Decode(b[..n])), b[n..]))
    case Chars(n) => if |b| < n || n == 0 then None else Some((Str(b[..n - 1] + [0]), b[n..]))
    case Raw(n) => if |b| < n then None else Some((Str(b[..n]), b[n..]))
  }

  type Values = FieldName -> Val

  ghost predicate AllHold(fs: seq<Field>, m: Values) {
    forall f :: f in fs ==> Holds(f.kind, m(f.name))
  }

  function WriteAll(fs: seq<Field>, m: Values): (b: Bytes)
    requires AllHold(fs, m)
    ensures |b| == WidthOf(fs)
  {
    if fs == [] then [] else Write(fs[0].kind, m(fs[0].name)) + WriteAll(fs[1..], m)
  }

  function ReadAll(fs: seq<Field>, b: Bytes): Option<(seq<Named>, Bytes)> {
    if fs == [] then Some(([], b))
    else match Read(fs[0].kind, b)
      case None => None
      case Some(r) =>
        match ReadAll(fs[1..], r.1)
        case None => None
        case Some(q) => Some(([Named(fs[0].name, r.0)] + q.0, q.1))
  }

  // The fields with the values a packet has for them.
  function Tagged(fs: seq<Field>, m: Values): (r: seq<Named>)
    ensures |r| == |fs| && forall i :: 0 <= i < |fs| ==> r[i] == Named(fs[i].name, m(fs[i].name))
  {
    seq(|fs|, i requires 0 <= i < |fs| => Named(fs[i].name, m(fs[i].name)))
  }

  lemma ReadWritten(k: Kind, v: Val, r: Bytes)
    requires Holds(k, v)
    ensures Read(k, Write(k, v) + r) == Some((v, r))
  {
    var w := Write(k, v);
    assert (w + r)[..|w|] == w && (w + r)[|w|..] == r;
    match k {
      case Int(n) => DecodeEncode(v.n, n);
      case Chars(n) => assert (w + r)[..n - 1] + [0] == v.s;
      case Raw(n) =>
    }
  }

  lemma WriteAllCons(fs: seq<Field>, m: Values, r: Bytes)
    requires fs != [] && AllHold(fs, m)
    ensures WriteAll(fs, m) + r == Write(fs[0].kind, m(fs[0].name)) + (WriteAll(fs[1..], m) + r)
  {
    hide Holds, Write;
  }

  lemma TaggedCons(fs: seq<Field>, m: Values)
    requires fs != []
    ensures Tagged(fs, m) == [Named(fs[0].name, m(fs[0].name))] + Tagged(fs[1..], m)
  {
  }

  // Reading the fields gives the values written, and leaves what follows.
  lemma {:induction false} ReadAllWritten(fs: seq<Field>, m: Values, r: Bytes)
    requires AllHold(fs, m)
    ensures ReadAll(fs, WriteAll(fs, m) + r) == Some((Tagged(fs, m), r))
  {
    hide Holds, Write, WriteAll, Read, Tagged;
    if fs == [] {
      NoFields(m, r);
    } else {
      ReadWritten(fs[0].kind, m(fs[0].name), WriteAll(fs[1..], m) + r);
      ReadAllWritten(fs[1..], m, r);
      WriteAllCons(fs, m, r);
      TaggedCons(fs, m);
    }
  }

  lemma NoFields(m: Values, r: Bytes)
    ensures WriteAll([], m) + r == r && Tagged([], m) == []
  {
    assert WriteAll([], m) == [];
  }

  // ---------- the operation codes ----------

  const HEAD_LENGTH := 31         // PACKET_HEAD_LENGTH

  function Long(name: FieldName): Field {
    Field(name, Int(8))
  }

  const TOKEN := Field(Token, Chars(TOKEN_LEN))

  // struct PacketHead.
  const HEAD: seq<Field> := [
    Field(PacketLength, Int(4)), Field(OperateCode, Int(4)), Field(DataLength, Int(4)), Field(CurrentTime, Int(4)),
    Field(MsgType, Int(2)), Field(IsZip, Int(1)), Field(MsgId, Int(8)), Field(Reserverd, Int(4))]

  // struct Oppinfo, as it is written and as it is read.
  const WRITTEN_ENTRY: seq<Field> := [
    Long(UserId), Long(UserNicknumber), Field(Nickname, Chars(NICKNAME_LEN)), Field(UserHead, Raw(HEAD_URL_LEN))]
  const READ_ENTRY: seq<Field> := [
    Long(UserId), Long(UserNicknumber), Field(Nickname, Chars(NICKNAME_LEN)), Field(UserHead, Raw(HEAD_URL_LEN))]
  const ENTRY_SIZE := 8 * 2 + NICKNAME_LEN + HEAD_URL_LEN      // OPPSITIONINFO_SIZE

  // The fields PackStream writes behind the head.
  function Written(op: int): Option<seq<Field>> {
    match op
    case 200 => Some([Long(PlatformId), Long(SendUserId), Long(RecvUserId), Long(SessionId), Long(PrivateMsgId), TOKEN])
    case 1000 => Some([Long(PlatformId), Long(UserId), Field(NetType, Int(1)), Field(UserType, Int(1)), Field(Device, Int(1)), TOKEN])
    case 1001 => Some([Long(PlatformId), Long(UserId), Long(NickNumber), TOKEN,
                       Field(Nickname, Chars(NICKNAME_LEN)), Field(HeadUrl, Chars(HEAD_URL_LEN))])
    case 1002 => Some([Long(PlatformId)])
    case 1010 => Some([Long(PlatformId), Long(UserId), Long(Session), TOKEN])
    case 1011 => Some([Long(PlatformId), Long(UserId)])
    case 1020 => Some([Long(PlatformId), Long(UserId), Long(OppostionId), Field(Type, Int(2)), TOKEN])
    case 1021 => Some([Long(PlatformId), Long(OppoId), Long(OppoNickNumber), Long(Session), Field(OppoType, Int(2)),
                       Field(OppoNickname, Chars(NICKNAME_LEN)), Field(OppoUserHead, Chars(HEAD_URL_LEN))])
    case 1030 => Some([Long(PlatformId), Long(GroupId), Long(UserId), TOKEN])
    case 1031 => Some([Long(PlatformId), Long(GroupId), Long(UserId), Long(UserNicknumber),
                       Field(Nickname, Chars(NICKNAME_LEN)), Field(UserHead, Chars(HEAD_URL_LEN))])
    case 1100 => Some([Long(PlatformId), Long(SendUserId), Long(RecvUserId), Long(Session), TOKEN])
    case 1101 => Some([Long(PlatformId), Long(SendUserId), Long(RecvUserId)])
    case 2100 => Some([Long(PlatformId), Long(MultiId), Field(MultiType, Int(2)), Long(SendUserId), Long(Session), TOKEN])
    case 2101 => Some([Long(PlatformId), Long(MultiId), Long(SendUserId)])
    case 2200 => Some([Long(PlatformId), Long(MultiId), Long(SendUserId), Long(Session), TOKEN])
    case 2201 => Some([Long(PlatformId), Long(MultiId), Long(SendUserId), Field(SendNickname, Chars(NICKNAME_LEN))])
    case _ => None
  }

  predicate HasText(op: int) {
    op == 1002 || op == 1100 || op == 1101 || op == 2100 || op == 2101 || op == 2200 || op == 2201
  }

  // The size constants and macros of comm_head.h: the declared data length.
  function Declared(op: int, text: nat, entries: nat): nat {
    match op
    case 200 => 8 * 5 + TOKEN_LEN
    case 1000 => 8 * 2 + 1 * 3 + TOKEN_LEN
    case 1001 => 8 * 3 + TOKEN_LEN + NICKNAME_LEN + HEAD_URL_LEN
    case 1002 => 8 + text
    case 1010 => 8 * 3 + TOKEN_LEN
    case 1011 => 8 * 2
    case 1020 => 8 * 3 + 2 + TOKEN_LEN
    case 1021 => entries * ENTRY_SIZE + 8 * 4 + 2 + NICKNAME_LEN + HEAD_URL_LEN
    case 1030 => 8 * 3 + TOKEN_LEN
    case 1031 => 8 * 4 + NICKNAME_LEN + HEAD_URL_LEN
    case 1100 => 8 * 4 + TOKEN_LEN + text
    case 1101 => 8 * 3 + text
    case 2100 => 8 * 4 + 2 + TOKEN_LEN + text
    case 2101 => 8 * 3 + text
    case 2200 => 8 * 4 + TOKEN_LEN + text
    case 2201 => 8 * 3 + NICKNAME_LEN + text
    case _ => 0
  }

  // The fields UnpackStream reads behind the head.
  function Reads(op: int): Option<seq<Field>> {
    match op
    case 1000 => Some([Long(PlatformId), Long(UserId), Field(NetType, Int(1)), Field(UserType, Int(1)), Field(Device, Int(1)), TOKEN])
    case 1001 => Some([Long(PlatformId), Long(UserId), Long(NickNumber), TOKEN,
                       Field(Nickname, Chars(NICKNAME_LEN)), Field(HeadUrl, Chars(HEAD_URL_LEN))])
    case 1002 => Some([Long(PlatformId)])
    case 1010 => Some([Long(PlatformId), Long(UserId), Long(Session), TOKEN])
    case 1011 => Some([Long(PlatformId), Long(UserId)])
    case 1020 => Some([Long(PlatformId), Long(UserId), Long(OppostionId), Field(Type, Int(2)), TOKEN])
    case 1030 => Some([Long(PlatformId), Long(GroupId), Long(UserId), TOKEN])
    case 1031 => Some([Long(PlatformId), Long(GroupId), Long(UserId), Long(UserNicknumber),
                       Field(Nickname, Chars(NICKNAME_LEN)), Field(UserHead, Chars(HEAD_URL_LEN))])
    case 1101 => Some([Long(PlatformId), Long(SendUserId), Long(RecvUserId)])
    case 1100 => Some([Long(PlatformId), Long(SendUserId), Long(RecvUserId), Long(Session), TOKEN])
    case 200 => Some([Long(PlatformId), Long(SendUserId), Long(RecvUserId), Long(SessionId), Long(PrivateMsgId), TOKEN])
    case 1021 => Some([Long(PlatformId), Long(OppoId), Long(OppoNickNumber), Long(Session), Field(OppoType, Int(2)),
                       Field(OppoNickname, Chars(NICKNAME_LEN)), Field(OppoUserHead, Chars(HEAD_URL_LEN))])
    case 2200 => Some([Long(PlatformId), Long(MultiId), Long(SendUserId), Long(Session), TOKEN])
    case 2201 => Some([Long(PlatformId), Long(MultiId), Long(SendUserId), Field(SendNickname, Chars(NICKNAME_LEN))])
    case 2100 => Some([Long(PlatformId), Long(MultiId), Field(MultiType, Int(2)), Long(SendUserId), Long(Session), TOKEN])
    case 2101 => Some([Long(PlatformId), Long(MultiId), Long(SendUserId)])
    case _ => None
  }

  // What UnpackStream subtracts from the data length to get the length of the text.
  function TextOffset(op: int): nat {
    match op
    case 1002 => 0
    case 1101 => 8 * 2
    case 1100 => 8 * 4 + TOKEN_LEN
    case 2200 => 8 * 4 + TOKEN_LEN
    case 2201 => 8 * 3 + NICKNAME_LEN
    case 2100 => 8 * 4 + 2 + TOKEN_LEN
    case 2101 => 8 * 3
    case _ => 0
  }

  const LIST_OFFSET := 8 * 3 + NICKNAME_LEN + TOKEN_LEN

  // ---------- PackStream ----------

  // A packet: its head, fixed fields, text and list entries.
  datatype Packet = Packet(op: int, head: Values, fields: Values, text: Bytes, entries: seq<Values>)

  function DeclaredLength(p: Packet): nat {
    Declared(p.op, |p.text|, |p.entries|)
  }

  // BUILDHEAD fills in the lengths.
  function HeadOf(p: Packet): Values {
    (name: FieldName) =>
      if name == PacketLength then Num(DeclaredLength(p) + HEAD_LENGTH)
      else if name == OperateCode then Num(p.op)
      else if name == DataLength then Num(DeclaredLength(p))
      else p.head(name)
  }

  // Every field fits; text and entries only where the operation code has them; the
  // lengths fit into an int32.
  ghost predicate Wellformed(p: Packet) {
    && Written(p.op).Some? && DeclaredLength(p) + HEAD_LENGTH < 0x8000_0000
    && AllHold(HEAD, HeadOf(p)) && AllHold(Written(p.op).value, p.fields)
    && (!HasText(p.op) ==> p.text == [])
    && (p.op != 1021 ==> p.entries == [])
    && forall e :: e in p.entries ==> AllHold(WRITTEN_ENTRY, e)
  }

  function WriteEntries(es: seq<Values>): (b: Bytes)
    requires forall e :: e in es ==> AllHold(WRITTEN_ENTRY, e)
  {
    if es == [] then [] else WriteAll(WRITTEN_ENTRY, es[0]) + WriteEntries(es[1..])
  }

  ghost function Pack(p: Packet): Bytes
    requires Wellformed(p)
  {
    WriteAll(HEAD, HeadOf(p)) + (WriteAll(Written(p.op).value, p.fields) + (p.text + WriteEntries(p.entries)))
  }

  // ---------- UnpackStream ----------

  // Refused: it returns false.  Outside: it reads outside the packet.
  datatype Unpacked = Refused | Outside | Ok(head: seq<Named>, fields: seq<Named>, text: Bytes, entries: seq<seq<Named>>)

  function ReadEntries(n: nat, b: Bytes): Option<seq<seq<Named>>> {
    if n == 0 then Some([])
    else match ReadAll(READ_ENTRY, b)
      case None => None
      case Some(r) => match ReadEntries(n - 1, r.1) case None => None case Some(es) => Some([r.0] + es)
  }

  function Unpack(b: Bytes): Unpacked {
    if |b| < HEAD_LENGTH then Refused
    else match ReadAll(HEAD, b)
      case None => Refused
      case Some(h) =>
        if |h.0| < 3 || !h.0[0].val.Num? || !h.0[1].val.Num? || !h.0[2].val.Num? then Refused
        else
          var packetLength, op, dataLength := h.0[0].val.n, h.0[1].val.n, h.0[2].val.n;
          if packetLength < HEAD_LENGTH || packetLength != |b| || dataLength != packetLength - HEAD_LENGTH then Refused
          else UnpackBody(op, dataLength, h.0, h.1)
  }

  // The switch of UnpackStream.
  function UnpackBody(op: int, dataLength: int, head: seq<Named>, b: Bytes): Unpacked {
    if Reads(op).None? then Refused
    else match ReadAll(Reads(op).value, b)
      case None => Outside
      case Some(r) =>
        if HasText(op) then
          var len := dataLength - TextOffset(op);
          if len < 0 || |r.1| < len then Outside else Ok(head, r.0, r.1[..len], [])
        else if op == 1021 then
          if dataLength < LIST_OFFSET then Outside
          else match ReadEntries((dataLength - LIST_OFFSET) / ENTRY_SIZE, r.1)
            case None => Outside
            case Some(es) => Ok(head, r.0, [], es)
        else Ok(head, r.0, [], [])
  }

  // ---------- reading undoes writing ----------

  // The two functions treat every operation code alike, field by field.
  lemma SameFields(op: int)
    ensures Reads(op) == Written(op) && READ_ENTRY == WRITTEN_ENTRY
  {
  }

  function WidthAt(fs: seq<Field>, i: nat): nat {
    if i < |fs| then Width(fs[i].kind) else 0
  }

  lemma WidthFrom(fs: seq<Field>, i: nat)
    ensures i <= |fs| ==> WidthOf(fs[i..]) == WidthAt(fs, i) + if i < |fs| then WidthOf(fs[i + 1..]) else 0
  {
    assert i < |fs| ==> fs[i..][1..] == fs[i + 1..];
    hide Width;
  }

  lemma WidthSum(fs: seq<Field>)
    requires |fs| <= 8
    ensures WidthOf(fs) == WidthAt(fs, 0) + WidthAt(fs, 1) + WidthAt(fs, 2) + WidthAt(fs, 3)
                         + WidthAt(fs, 4) + WidthAt(fs, 5) + WidthAt(fs, 6) + WidthAt(fs, 7)
  {
    hide WidthOf, Width;
    assert fs[0..] == fs;
    WidthFrom(fs, 0);
    WidthFrom(fs, 1);
    WidthFrom(fs, 2);
    WidthFrom(fs, 3);
    WidthFrom(fs, 4);
    WidthFrom(fs, 5);
    WidthFrom(fs, 6);
    WidthFrom(fs, 7);
    WidthFrom(fs, 8);
  }

  lemma HeadWidth()
    ensures WidthOf(HEAD) == HEAD_LENGTH && WidthOf(WRITTEN_ENTRY) == ENTRY_SIZE
  {
    hide WidthOf;
    WidthSum(HEAD);
    WidthSum(WRITTEN_ENTRY);
  }

  lemma DeclaredPositive(op: int, text: nat, entries: nat)
    requires Written(op).Some?
    ensures Declared(op, text, entries) > 0
  {
  }

  // The size constants are the widths of the fields.
  lemma DeclaredWidth(op: int, text: nat, entries: nat)
    requires Written(op).Some?
    ensures Declared(op, text, entries) == WidthOf(Written(op).value)
            + (if HasText(op) then text else 0) + (if op == 1021 then entries * ENTRY_SIZE else 0)
  {
    hide Declared, Written, WidthOf;
    if op < 1030 {
      DeclaredWidthBelow(op, text, entries);
    } else {
      DeclaredWidthAbove(op, text, entries);
    }
  }

  lemma DeclaredWidthBelow(op: int, text: nat, entries: nat)
    requires op < 1030 && Written(op).Some?
    ensures Declared(op, text, entries) == WidthOf(Written(op).value)
            + (if HasText(op) then text else 0) + (if op == 1021 then entries * ENTRY_SIZE else 0)
  {
    hide WidthOf;
    WidthSum(Written(op).value);
  }

  lemma DeclaredWidthAbove(op: int, text: nat, entries: nat)
    requires op >= 1030 && Written(op).Some?
    ensures Declared(op, text, entries) == WidthOf(Written(op).value)
            + (if HasText(op) then text else 0) + (if op == 1021 then entries * ENTRY_SIZE else 0)
  {
    hide WidthOf;
    WidthSum(Written(op).value);
  }

  lemma {:induction false} EntriesWidth(es: seq<Values>)
    requires forall e :: e in es ==> AllHold(WRITTEN_ENTRY, e)
    ensures |WriteEntries(es)| == |es| * ENTRY_SIZE
  {
    hide AllHold, WriteAll, WidthOf;
    if es != [] {
      EntriesWidth(es[1..]);
      HeadWidth();
      assert |es| * ENTRY_SIZE == ENTRY_SIZE + (|es| - 1) * ENTRY_SIZE;
    }
  }

  // The caller's head as MAKE_FAIL_HEAD builds it.
  predicate BareHead(p: Packet) {
    p.head(PacketLength) == Num(HEAD_LENGTH) && p.head(DataLength) == Num(0)
  }

  // The length PackStream reports.
  function Reported(p: Packet): nat {
    if BareHead(p) then HEAD_LENGTH else DeclaredLength(p) + HEAD_LENGTH
  }

  // The bytes that leave: as many of the packet as are reported.
  ghost function Sent(p: Packet): Bytes
    requires Wellformed(p)
  {
    SizeIsDeclared(p);
    Pack(p)[..Reported(p)]
  }

  // As many bytes are written as declared, and so many are reported exactly when the
  // caller's head is no bare one.
  lemma SizeIsDeclared(p: Packet)
    requires Wellformed(p)
    ensures |Pack(p)| == DeclaredLength(p) + HEAD_LENGTH
    ensures Reported(p) == |Pack(p)| <==> !BareHead(p)
  {
    hide AllHold, WriteAll, WriteEntries, Written, Declared, WidthOf, BareHead;
    DeclaredPositive(p.op, |p.text|, |p.entries|);
    DeclaredWidth(p.op, |p.text|, |p.entries|);
    HeadWidth();
    EntriesWidth(p.entries);
  }

  function TaggedEntries(es: seq<Values>): (r: seq<seq<Named>>)
    ensures |r| == |es| && forall i :: 0 <= i < |es| ==> r[i] == Tagged(WRITTEN_ENTRY, es[i])
  {
    seq(|es|, i requires 0 <= i < |es| => Tagged(WRITTEN_ENTRY, es[i]))
  }

  lemma TaggedEntriesCons(es: seq<Values>)
    requires es != []
    ensures TaggedEntries(es) == [Tagged(WRITTEN_ENTRY, es[0])] + TaggedEntries(es[1..])
  {
    hide Tagged;
  }

  lemma {:induction false} ReadEntriesWritten(es: seq<Values>)
    requires forall e :: e in es ==> AllHold(WRITTEN_ENTRY, e)
    ensures ReadEntries(|es|, WriteEntries(es)) == Some(TaggedEntries(es))
  {
    hide AllHold, ReadAll, WriteAll, Tagged;
    if es != [] {
      SameFields(1021);
      ReadAllWritten(WRITTEN_ENTRY, es[0], WriteEntries(es[1..]));
      ReadEntriesWritten(es[1..]);
      TaggedEntriesCons(es);
    }
  }

  // The constant subtracted for the list is not the width in front of it, but the
  // division by the entry size gives the number of entries all the same.
  lemma ListLength(n: nat)
    ensures (Declared(1021, 0, n) - LIST_OFFSET) / ENTRY_SIZE == n
    ensures Declared(1021, 0, n) >= LIST_OFFSET
  {
    assert Declared(1021, 0, n) - LIST_OFFSET == n * ENTRY_SIZE + 234;
  }

  // The codes whose text length is computed too large.
  predicate ReadsPastEnd(op: int) {
    op == 1002 || op == 1101
  }

  // The text offset is right for all other codes.
  lemma OffsetIff(op: int, text: nat)
    requires Written(op).Some? && HasText(op)
    ensures Declared(op, text, 0) - TextOffset(op) == text <==> !ReadsPastEnd(op)
    ensures ReadsPastEnd(op) ==> Declared(op, text, 0) - TextOffset(op) > text
  {
  }

  // What the reader should see.
  function Seen(p: Packet): Unpacked
    requires Written(p.op).Some?
  {
    Ok(Tagged(HEAD, HeadOf(p)), Tagged(Written(p.op).value, p.fields), p.text, TaggedEntries(p.entries))
  }

  function Body(p: Packet): Bytes
    requires Wellformed(p)
  {
    WriteAll(Written(p.op).value, p.fields) + (p.text + WriteEntries(p.entries))
  }

  // The head is read as it was written and passes the checks.
  lemma HeadReads(p: Packet)
    requires Wellformed(p)
    ensures Unpack(Pack(p)) == UnpackBody(p.op, DeclaredLength(p), Tagged(HEAD, HeadOf(p)), Body(p))
  {
    hide UnpackBody, ReadAll, WriteAll, WriteEntries, Written, Declared, AllHold, WidthOf, TaggedEntries;
    SizeIsDeclared(p);
    ReadAllWritten(HEAD, HeadOf(p), Body(p));
    HeadTags(p);
  }

  lemma HeadTags(p: Packet)
    ensures var h := Tagged(HEAD, HeadOf(p));
            |h| == 8 && h[0].val == Num(DeclaredLength(p) + HEAD_LENGTH) && h[1].val == Num(p.op) && h[2].val == Num(DeclaredLength(p))
  {
    hide Declared, Written;
  }

  // Behind the head, the text and the list.
  lemma BodyReads(p: Packet)
    requires Wellformed(p)
    ensures UnpackBody(p.op, DeclaredLength(p), Tagged(HEAD, HeadOf(p)), Body(p))
         == if ReadsPastEnd(p.op) then Outside else Seen(p)
  {
    hide ReadAll, WriteAll, WriteEntries, Written, Reads, Declared, AllHold, ReadEntries, Tagged, TextOffset, HeadOf;
    SameFields(p.op);
    var rest := p.text + WriteEntries(p.entries);
    ReadAllWritten(Written(p.op).value, p.fields, rest);
    NoEntries();
    if HasText(p.op) {
      OffsetIff(p.op, |p.text|);
      assert rest == p.text && rest[..|p.text|] == p.text;
    } else if p.op == 1021 {
      ListLength(|p.entries|);
      ReadEntriesWritten(p.entries);
      assert rest == WriteEntries(p.entries);
    }
  }

  lemma NoEntries()
    ensures WriteEntries([]) == [] && TaggedEntries([]) == []
  {
  }

  // Of a packet reported with the length of its head alone only the head arrives, and
  // is refused.
  lemma BareHeadRefused(p: Packet)
    requires Wellformed(p) && BareHead(p)
    ensures Unpack(Sent(p)) == Refused
  {
    hide UnpackBody, ReadAll, WriteAll, WriteEntries, Written, Declared, AllHold, WidthOf, TaggedEntries;
    SizeIsDeclared(p);
    DeclaredPositive(p.op, |p.text|, |p.entries|);
    HeadWidth();
    var head := WriteAll(HEAD, HeadOf(p));
    ReadAllWritten(HEAD, HeadOf(p), []);
    assert Sent(p) == head && head + [] == head;
    HeadTags(p);
  }

  // Reading what was sent gives every field, the text and the list back, except in two
  // cases: a packet with a bare head is refused, and for two operation codes the reader
  // goes outside the packet.
  lemma RoundTripIff(p: Packet)
    requires Wellformed(p)
    ensures Unpack(Sent(p)) == if BareHead(p) then Refused else if ReadsPastEnd(p.op) then Outside else Seen(p)
    ensures Unpack(Sent(p)) == Seen(p) <==> !BareHead(p) && !ReadsPastEnd(p.op)
  {
    hide *;
    SeenIsOk(p);
    if BareHead(p) {
      BareHeadRefused(p);
    } else {
      SentWhole(p);
      HeadReads(p);
      BodyReads(p);
    }
  }

  lemma SeenIsOk(p: Packet)
    requires Wellformed(p)
    ensures Seen(p).Ok?
  {
  }

  lemma SentWhole(p: Packet)
    requires Wellformed(p) && !BareHead(p)
    ensures Sent(p) == Pack(p)
  {
    hide Pack, Wellformed, DeclaredLength;
    SizeIsDeclared(p);
  }

  // A packet of zeros, for the operation codes with integers only.
  function Zeros(op: int, packetLength: int): Packet {
    Packet(op, name => if name == PacketLength then Num(packetLength) else Num(0), name => Num(0), [], [])
  }

  // A head that is zero but for its lengths and its operation code.
  ghost predicate PlainHead(m: Values, len: int, op: int, data: int) {
    && m(PacketLength) == Num(len) && m(OperateCode) == Num(op) && m(DataLength) == Num(data)
    && m(CurrentTime) == Num(0) && m(MsgType) == Num(0) && m(IsZip) == Num(0) && m(MsgId) == Num(0) && m(Reserverd) == Num(0)
  }

  lemma HeadFits(m: Values, len: int, op: int, data: int)
    requires PlainHead(m, len, op, data) && Fits(len, 4) && Fits(op, 4) && Fits(data, 4)
    ensures AllHold(HEAD, m)
  {
  }

  lemma ZerosHead(op: int, packetLength: int)
    requires op == 1002 || op == 1011 || op == 1101
    ensures AllHold(HEAD, HeadOf(Zeros(op, packetLength)))
  {
    hide AllHold, Zeros, HeadOf, DeclaredLength, PlainHead;
    var p := Zeros(op, packetLength);
    var n := DeclaredLength(p);
    ZerosLength(op, packetLength);
    ZerosPlain(op, packetLength);
    HeadFits(HeadOf(p), n + HEAD_LENGTH, op, n);
  }

  lemma ZerosPlain(op: int, packetLength: int)
    ensures var p := Zeros(op, packetLength);
            PlainHead(HeadOf(p), DeclaredLength(p) + HEAD_LENGTH, op, DeclaredLength(p))
  {
    hide DeclaredLength;
  }

  lemma ZerosFit(op: int, packetLength: int)
    requires op == 1002 || op == 1011 || op == 1101
    ensures Wellformed(Zeros(op, packetLength))
  {
    hide HeadOf, AllHold, Written, DeclaredLength, Zeros;
    ZerosHead(op, packetLength);
    ZerosFields(op, packetLength);
    ZerosLength(op, packetLength);
    ZerosParts(op, packetLength);
  }

  lemma ZerosParts(op: int, packetLength: int)
    ensures var p := Zeros(op, packetLength);
            p.op == op && p.text == [] && p.entries == [] && (BareHead(p) <==> packetLength == HEAD_LENGTH)
  {
  }

  lemma ZerosFields(op: int, packetLength: int)
    requires op == 1002 || op == 1011 || op == 1101
    ensures Written(op).Some? && AllHold(Written(op).value, Zeros(op, packetLength).fields)
  {
    hide Written, Zeros;
    LongFields(op);
    ZeroFields(op, packetLength);
  }

  lemma ZeroFields(op: int, packetLength: int)
    ensures forall name :: Zeros(op, packetLength).fields(name) == Num(0)
  {
  }

  lemma LongFields(op: int)
    requires op == 1002 || op == 1011 || op == 1101
    ensures Written(op).Some? && forall f :: f in Written(op).value ==> f.kind == Int(8)
  {
  }

  lemma ZerosLength(op: int, packetLength: int)
    requires op == 1002 || op == 1011 || op == 1101
    ensures DeclaredLength(Zeros(op, packetLength)) < 90
  {
  }

  lemma ZerosRoundTrip(op: int, packetLength: int)
    requires op == 1002 || op == 1011 || op == 1101
    ensures var p := Zeros(op, packetLength);
            && Wellformed(p)
            && Unpack(Sent(p)) == if packetLength == HEAD_LENGTH then Refused else if op == 1011 then Seen(p) else Outside
  {
    hide Unpack, Sent, Wellformed, Seen, BareHead, Zeros;
    ZerosParts(op, packetLength);
    ZerosFit(op, packetLength);
    RoundTripIff(Zeros(op, packetLength));
  }

  // A packet for each of the three failures, and one that comes back.
  lemma Failures()
    ensures Wellformed(Zeros(1002, 0)) && Unpack(Sent(Zeros(1002, 0))) == Outside
    ensures Wellformed(Zeros(1101, 0)) && Unpack(Sent(Zeros(1101, 0))) == Outside
    ensures Wellformed(Zeros(1011, HEAD_LENGTH)) && Unpack(Sent(Zeros(1011, HEAD_LENGTH))) == Refused
    ensures Wellformed(Zeros(1011, 0)) && Unpack(Sent(Zeros(1011, 0))) == Seen(Zeros(1011, 0))
  {
    hide Unpack, Sent, Wellformed, Seen, Zeros;
    ZerosRoundTrip(1002, 0);
    ZerosRoundTrip(1101, 0);
    ZerosRoundTrip(1011, HEAD_LENGTH);
    ZerosRoundTrip(1011, 0);
  }
}
