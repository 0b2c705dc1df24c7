/** The bytes of a packet: where the integers of the head stand, and in which order the
    bytes of an integer are. */
module ChatLayout {
  import opened ChatCodec

  // The least significant byte comes first, and the sign is that of the last one.
  lemma BytesOfAnInteger(n: int)
    requires Fits(n, 4)
    ensures var b := Encode(n, 4);
            && |b| == 4 && (forall i :: 0 <= i < 4 ==> 0 <= b[i] < 256)
            && n == b[0] + 0x100 * b[1] + 0x1_0000 * b[2] + 0x100_0000 * if b[3] >= 128 then b[3] - 256 else b[3]
  {
    DecodeEncode(n, 4);
    ByteRange(n, 4);
    DecodeFour(Encode(n, 4));
  }

  lemma {:induction false} ByteRange(n: int, k: nat)
    ensures forall i :: 0 <= i < k ==> 0 <= Encode(n, k)[i] < 256
    decreases k
  {
    if k > 0 {
      ByteRange(n / 256, k - 1);
    }
  }

  lemma DecodeFour(b: Bytes)
    requires |b| == 4
    ensures Decode(b) == b[0] + 0x100 * b[1] + 0x1_0000 * b[2] + 0x100_0000 * if b[3] >= 128 then b[3] - 256 else b[3]
  {
    assert b[1..][1..] == b[2..] && b[2..][1..] == b[3..];
    assert Decode(b[3..]) == if b[3] >= 128 then b[3] - 256 else b[3];
    assert Decode(b[2..]) == b[2] + 256 * Decode(b[3..]);
    assert Decode(b[1..]) == b[1] + 256 * Decode(b[2..]);
  }

  lemma WriteStep(fs: seq<Field>, m: Values)
    requires fs != [] && AllHold(fs, m)
    ensures WriteAll(fs, m) == Write(fs[0].kind, m(fs[0].name)) + WriteAll(fs[1..], m)
  {
  }

  lemma WidthStep(fs: seq<Field>, i: nat)
    requires 0 < i <= |fs|
    ensures WidthOf(fs[..i]) == Width(fs[0].kind) + WidthOf(fs[1..][..i - 1])
  {
    assert fs[..i][1..] == fs[1..][..i - 1];
    hide Width;
  }

  lemma Behind(w: Bytes, r: Bytes, a: nat, b: nat)
    requires a <= b <= |r|
    ensures (w + r)[|w| + a..|w| + b] == r[a..b] && (w + r)[0..|w|] == w
  {
  }

  // Field i of a list stands behind the widths of those in front of it.
  lemma {:induction false} FieldStands(fs: seq<Field>, m: Values, i: nat)
    requires AllHold(fs, m) && i < |fs|
    ensures var at := WidthOf(fs[..i]);
            && at + Width(fs[i].kind) <= |WriteAll(fs, m)|
            && WriteAll(fs, m)[at..at + Width(fs[i].kind)] == Write(fs[i].kind, m(fs[i].name))
    decreases i
  {
    hide WriteAll, WidthOf, Write, Holds, Width;
    WriteStep(fs, m);
    var w, r := Write(fs[0].kind, m(fs[0].name)), WriteAll(fs[1..], m);
    if i > 0 {
      FieldStands(fs[1..], m, i - 1);
      WidthStep(fs, i);
      var at := WidthOf(fs[1..][..i - 1]);
      Behind(w, r, at, at + Width(fs[i].kind));
    } else {
      Behind(w, r, 0, 0);
      NoWidth(fs);
    }
  }

  lemma NoWidth(fs: seq<Field>)
    ensures WidthOf(fs[..0]) == 0
  {
  }

  lemma HeadOffset(i: nat)
    requires i < 8
    ensures i < |HEAD| && WidthOf(HEAD[..i]) == [0, 4, 8, 12, 16, 18, 19, 27][i]
  {
    hide WidthOf;
    WidthSum(HEAD[..i]);
  }

  // The integer in field i of the head, which stands behind `at` bytes.
  lemma HeadField(p: Packet, i: nat, name: FieldName, n: nat, at: nat)
    requires Wellformed(p) && i < |HEAD| && HEAD[i] == Field(name, Int(n)) && WidthOf(HEAD[..i]) == at
    ensures HeadOf(p)(name).Num? && at + n <= |Pack(p)| && Pack(p)[at..at + n] == Encode(HeadOf(p)(name).n, n)
  {
    hide WidthOf, WriteAll, HeadOf, WriteEntries, Written, Encode;
    HeadHolds(p, i);
    FieldStands(HEAD, HeadOf(p), i);
    var head := WriteAll(HEAD, HeadOf(p));
    assert Pack(p)[at..at + n] == head[at..at + n];
  }

  lemma HeadHolds(p: Packet, i: nat)
    requires Wellformed(p) && i < |HEAD|
    ensures AllHold(HEAD, HeadOf(p)) && Holds(HEAD[i].kind, HeadOf(p)(HEAD[i].name))
  {
    hide HeadOf, Written, Holds, DeclaredLength;
    assert HEAD[i] in HEAD;
  }

  // The head on the wire: the packet's own length, the operation code, the length of what
  // follows the head, and the caller's five integers.
  lemma HeadLayout(p: Packet)
    requires Wellformed(p)
    ensures |Pack(p)| >= 31
    ensures forall name :: name in [CurrentTime, MsgType, IsZip, MsgId, Reserverd] ==> p.head(name).Num?
    ensures Pack(p)[0..4] == Encode(|Pack(p)|, 4)
    ensures Pack(p)[4..8] == Encode(p.op, 4)
    ensures Pack(p)[8..12] == Encode(|Pack(p)| - 31, 4)
    ensures Pack(p)[12..16] == Encode(p.head(CurrentTime).n, 4)
    ensures Pack(p)[16..18] == Encode(p.head(MsgType).n, 2)
    ensures Pack(p)[18..19] == Encode(p.head(IsZip).n, 1)
    ensures Pack(p)[19..27] == Encode(p.head(MsgId).n, 8)
    ensures Pack(p)[27..31] == Encode(p.head(Reserverd).n, 4)
  {
    hide Pack, Encode, DeclaredLength, Wellformed, WidthOf;
    SizeIsDeclared(p);
    HeadOffset(0);
    HeadField(p, 0, PacketLength, 4, 0);
    HeadOffset(1);
    HeadField(p, 1, OperateCode, 4, 4);
    HeadOffset(2);
    HeadField(p, 2, DataLength, 4, 8);
    HeadOffset(3);
    HeadField(p, 3, CurrentTime, 4, 12);
    HeadOffset(4);
    HeadField(p, 4, MsgType, 2, 16);
    HeadOffset(5);
    HeadField(p, 5, IsZip, 1, 18);
    HeadOffset(6);
    HeadField(p, 6, MsgId, 8, 19);
    HeadOffset(7);
    HeadField(p, 7, Reserverd, 4, 27);
  }

  // Behind the head stands the platform, whatever the operation code, and the text is the
  // end of the packet.
  lemma BodyLayout(p: Packet)
    requires Wellformed(p)
    ensures p.fields(PlatformId).Num? && |Pack(p)| >= 39 + |p.text|
    ensures Pack(p)[31..39] == Encode(p.fields(PlatformId).n, 8)
    ensures Pack(p)[|Pack(p)| - |p.text|..] == p.text || p.op == 1021
  {
    hide Encode, DeclaredLength, HeadOf, WriteAll, WriteEntries, Written, WidthOf;
    HeadWidth();
    PlatformFirst(p);
    NoEntries();
    var fs := Written(p.op).value;
    FieldStands(fs, p.fields, 0);
    NoWidth(fs);
    var head, fields := WriteAll(HEAD, HeadOf(p)), WriteAll(fs, p.fields);
    assert fields[0..8] == Encode(p.fields(PlatformId).n, 8);
    Behind(head, fields + (p.text + WriteEntries(p.entries)), 0, 8);
    assert (fields + (p.text + WriteEntries(p.entries)))[0..8] == fields[0..8];
  }

  lemma PlatformFirst(p: Packet)
    requires Wellformed(p)
    ensures Written(p.op).value != [] && Written(p.op).value[0] == Long(PlatformId) && Holds(Int(8), p.fields(PlatformId))
  {
    hide DeclaredLength, HeadOf, Holds;
    FirstField(p.op);
    assert Written(p.op).value[0] in Written(p.op).value;
  }

  lemma FirstField(op: int)
    requires Written(op).Some?
    ensures Written(op).value != [] && Written(op).value[0] == Long(PlatformId)
  {
  }
}
