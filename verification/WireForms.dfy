/** What the encoder's bytes are to any other implementation of the wire format, and what the decoder makes
    of the bytes of others: numbers, tags and records without reference to this code's own reader and writer.
 */
module WireForms {
  import opened Common
  import opened Words
  import opened Varint
  import opened Wire
  import opened Message

  const WORD32: nat := 0x1_0000_0000
  const WORD64: nat := 0x1_0000_0000_0000_0000

  // ---- Varints ----

  predicate IsVarintKind(k: Kind) {
    k in {Kind.Int32, UInt32, SInt32, Kind.Int64, UInt64, SInt64, Bool, Enum}
  }

  // The number that the format prescribes for a value of this kind: plain kinds are sign-extended to 64 bits,
  // the sint kinds zigzag.
  function NumberOf(k: Kind, s: Scalar): int
    requires IsVarintKind(k) && InRange(k, s)
  {
    if k == Bool then (if s.b then 1 else 0)
    else if k == SInt32 || k == SInt64 then (if s.i >= 0 then 2 * s.i else -2 * s.i - 1)
    else if s.i >= 0 then s.i
    else s.i + WORD64
  }

  /** A value of a varint kind is written as the varint of the number that the format prescribes for it. */
  lemma VarintKindsAreWritten(k: Kind, s: Scalar, rest: seq<byte>)
    requires IsVarintKind(k) && InRange(k, s)
    ensures Decode(ScalarBytes(k, s) + rest, 10) == Some(Varint.Read(NumberOf(k, s), |ScalarBytes(k, s)|))
  {
    TenGroups();
    WordIs(k, s);
    DecodeEncode(NumberOf(k, s), rest, 10);
  }

  lemma WordIs(k: Kind, s: Scalar)
    requires IsVarintKind(k) && InRange(k, s)
    ensures 0 <= NumberOf(k, s) < WORD64 && ScalarBytes(k, s) == Encode(NumberOf(k, s))
  {
    if k == Kind.Int32 {
      SignExtended(s.i);
    } else if k == SInt32 {
      Signed32OfU32(s.i);
      Zigzag32(s.i);
    } else if k == SInt64 {
      Signed64OfU64(s.i);
      Zigzag64(s.i);
    } else if k != Bool && s.i < 0 {
      Same64(s.i, s.i + WORD64, -1);
    }
  }

  lemma SignExtended(i: int)
    requires Words.Int32(i)
    ensures ExpandSig(U32(i)) == if i >= 0 then i else i + WORD64
  {
    Signed32OfU32(i);
    ExpandSigIsSignExtension(U32(i));
  }

  /** So an int32 field may be read as an int64 one, and a negative one takes ten bytes. */
  lemma Int32IsInt64(i: int, rest: seq<byte>)
    requires Words.Int32(i)
    ensures ReadScalar(Kind.Int64, ScalarBytes(Kind.Int32, Int(i)) + rest) ==
            Some(Got(Int(i), |ScalarBytes(Kind.Int32, Int(i))|))
    ensures ScalarBytes(Kind.Int32, Int(-1)) == [0xff, 0xff, 0xff, 0xff, 0xff, 0xff, 0xff, 0xff, 0xff, 0x01]
  {
    WordIs(Kind.Int32, Int(i));
    WordIs(Kind.Int64, Int(i));
    ScalarRoundTrip(Kind.Int64, Int(i), rest);
    WordIs(Kind.Int32, Int(-1));
    AllOnes();
  }

  lemma AllOnes()
    ensures Encode(0xffff_ffff_ffff_ffff) == [0xff, 0xff, 0xff, 0xff, 0xff, 0xff, 0xff, 0xff, 0xff, 0x01]
  {
    OnesAfter(0x1, []);
    OnesAfter(0xff, [0xff]);
    OnesAfter(0x7fff, [0xff, 0xff]);
    OnesAfter(0x3f_ffff, [0xff, 0xff, 0xff]);
    OnesAfter(0x1fff_ffff, [0xff, 0xff, 0xff, 0xff]);
    OnesAfter(0xf_ffff_ffff, [0xff, 0xff, 0xff, 0xff, 0xff]);
    OnesAfter(0x7ff_ffff_ffff, [0xff, 0xff, 0xff, 0xff, 0xff, 0xff]);
    OnesAfter(0x3_ffff_ffff_ffff, [0xff, 0xff, 0xff, 0xff, 0xff, 0xff, 0xff]);
    OnesAfter(0x1ff_ffff_ffff_ffff, [0xff, 0xff, 0xff, 0xff, 0xff, 0xff, 0xff, 0xff]);
  }

  lemma OnesAfter(n: nat, ones: seq<byte>)
    requires n > 0 && Encode(n) == ones + [0x01]
    ensures Encode(0x80 * n + 0x7f) == [0xff] + ones + [0x01]
  {
    assert (0x80 * n + 0x7f) / 0x80 == n && (0x80 * n + 0x7f) % 0x80 == 0x7f;
    assert [0xff] + (ones + [0x01]) == [0xff] + ones + [0x01];
  }

  // What a value of this kind should be when the varint w was read, however large.
  predicate IsReadOf(k: Kind, s: Scalar, w: nat)
    requires IsVarintKind(k)
  {
    match k
    case Bool => s == Boolean(w % WORD64 != 0)
    case Int32 => s.Int? && Words.Int32(s.i) && (s.i - w) % WORD32 == 0
    case UInt32 => s.Int? && s.i == w % WORD32
    case SInt32 => s.Int? && Words.Int32(s.i) && (if s.i >= 0 then 2 * s.i else -2 * s.i - 1) == w % WORD32
    case SInt64 => s.Int? && Words.Int64(s.i) && (if s.i >= 0 then 2 * s.i else -2 * s.i - 1) == w % WORD64
    case Int64 => IsWord64(s, w)
    case UInt64 => IsWord64(s, w)
    case Enum => IsWord64(s, w)
    case _ => false
  }

  predicate IsWord64(s: Scalar, w: nat) {
    s.Int? && Words.Int64(s.i) && (s.i - w) % WORD64 == 0
  }

  /** Any varint of at most ten bytes, canonical or not, in range or not, is read as the value of the kind that
      has its low bits, or as the truth of its being non-zero. */
  lemma VarintKindsAreRead(k: Kind, b: seq<byte>)
    requires IsVarintKind(k)
    ensures ReadScalar(k, b).Some? <==> Decode(b, 10).Some?
    ensures Decode(b, 10).Some? ==>
              ReadScalar(k, b).value.size == Decode(b, 10).value.size &&
              IsReadOf(k, ReadScalar(k, b).value.value, Decode(b, 10).value.value)
  {
    if Decode(b, 10).Some? {
      WordIsReadOf(k, Decode(b, 10).value.value);
    }
  }

  lemma WordIsReadOf(k: Kind, w: nat)
    requires IsVarintKind(k)
    ensures IsReadOf(k, FromWord(k, U64(w)), w)
  {
    WordIsRemainder(w);
    LowWord(w);
    if k == SInt32 {
      Sint32RoundTrip(0, U32(w));
      Zigzag32(DecodeSint32(U32(w)));
    } else if k == SInt64 {
      Sint64RoundTrip(0, U64(w));
      Zigzag64(DecodeSint64(U64(w)));
    } else if k == Kind.Int32 {
      SignedIsCongruent(w, WORD32);
    } else if k != Bool && k != UInt32 {
      SignedIsCongruent(w, WORD64);
    }
  }

  // The upper half of the residues, taken as negative numbers.
  lemma SignedIsCongruent(w: nat, m: nat)
    requires m == WORD32 || m == WORD64
    ensures ((if 2 * (w % m) < m then w % m else w % m - m) - w) % m == 0
  {
    var q := w / m;
    Multiple(w % m - w, 0 - q, m);
    Multiple(w % m - m - w, 0 - q - 1, m);
  }

  lemma Multiple(x: int, q: int, m: nat)
    requires (m == WORD32 || m == WORD64) && x == q * m
    ensures x % m == 0
  {
    if m == WORD32 {
      assert x == q * 0x1_0000_0000;
    } else {
      assert x == q * 0x1_0000_0000_0000_0000;
    }
  }

  lemma LowWord(w: nat)
    ensures U32(U64(w)) == U32(w)
  {
    var q := U64Split(w);
    Same32(w, U64(w), q * WORD32);
  }

  // ---- Fixed sizes and text ----

  predicate IsFixedKind(k: Kind) {
    k in {Fixed32, SFixed32, Fixed64, SFixed64}
  }

  // Little-endian.
  function Little4(b: seq<byte>): int
    requires |b| == 4
  {
    b[0] as int + 0x100 * b[1] as int + 0x1_0000 * b[2] as int + 0x100_0000 * b[3] as int
  }

  /** Fixed kinds take four or eight bytes, least significant first, in two's complement. */
  lemma FixedKindsAreWritten(k: Kind, s: Scalar)
    requires IsFixedKind(k) && InRange(k, s)
    ensures var b := ScalarBytes(k, s);
            if k == Fixed32 || k == SFixed32
            then |b| == 4 && Little4(b) == (if s.i >= 0 then s.i else s.i + WORD32)
            else |b| == 8 && Little4(b[..4]) + WORD32 * Little4(b[4..]) == (if s.i >= 0 then s.i else s.i + WORD64)
  {
    Pow256Values();
    var n := if k == Fixed32 || k == SFixed32 then 4 else 8;
    var w := if n == 4 then U32(s.i) else U64(s.i);
    if s.i < 0 {
      Same32(s.i, s.i + WORD32, -1);
      Same64(s.i, s.i + WORD64, -1);
    }
    FixedRoundTrip(w, n);
    LittleIsFixed(ScalarBytes(k, s));
  }

  lemma LittleIsFixed(b: seq<byte>)
    ensures |b| == 4 ==> FromFixed(b) == Little4(b)
    ensures |b| == 8 ==> FromFixed(b) == Little4(b[..4]) + WORD32 * Little4(b[4..])
  {
    if |b| == 4 {
      FourBytes(b);
    } else if |b| == 8 {
      assert b == [b[0], b[1], b[2], b[3]] + b[4..] && b[..4] == [b[0], b[1], b[2], b[3]];
      FourBytes(b[4..]);
      FourThenMore(b[0], b[1], b[2], b[3], b[4..]);
    }
  }

  lemma FourThenMore(p: byte, q: byte, r: byte, s: byte, c: seq<byte>)
    ensures FromFixed([p, q, r, s] + c) ==
            p as int + 0x100 * q as int + 0x1_0000 * r as int + 0x100_0000 * s as int + WORD32 * FromFixed(c)
  {
    var b := [p, q, r, s] + c;
    assert b[1..] == [q, r, s] + c && b[1..][1..] == [r, s] + c && b[1..][1..][1..] == [s] + c;
    assert b[1..][1..][1..][1..] == c;
    assert FromFixed(b) == p as int + 0x100 * FromFixed(b[1..]);
    assert FromFixed(b[1..]) == q as int + 0x100 * FromFixed(b[1..][1..]);
    assert FromFixed(b[1..][1..]) == r as int + 0x100 * FromFixed(b[1..][1..][1..]);
  }

  lemma FourBytes(b: seq<byte>)
    requires |b| == 4
    ensures FromFixed(b) == Little4(b)
  {
    assert b == [b[0], b[1], b[2], b[3]] + [];
    FourThenMore(b[0], b[1], b[2], b[3], []);
  }

  /** Any bytes are read as the number that they are in two's complement, with or without its sign. */
  lemma FixedKindsAreRead(k: Kind, b: seq<byte>)
    requires IsFixedKind(k)
    ensures var n := if k == Fixed32 || k == SFixed32 then 4 else 8;
            && (ReadScalar(k, b).Some? <==> |b| >= n)
            && (ReadScalar(k, b).Some? ==> ReadScalar(k, b).value.size == n)
    ensures k == Fixed32 && |b| >= 4 ==> ReadScalar(k, b).value.value == Int(Little4(b[..4]))
    ensures k == SFixed32 && |b| >= 4 ==>
              ReadScalar(k, b).value.value == Int(if b[3] < 0x80 then Little4(b[..4]) else Little4(b[..4]) - WORD32)
    ensures (k == Fixed64 || k == SFixed64) && |b| >= 8 ==>
              var v := Little4(b[..4]) + WORD32 * Little4(b[4..8]);
              ReadScalar(k, b).value.value == Int(if b[7] < 0x80 then v else v - WORD64)
  {
    if |b| >= 4 {
      LittleIsFixed(b[..4]);
    }
    if |b| >= 8 {
      LittleIsFixed(b[..8]);
      assert b[..8][..4] == b[..4] && b[..8][4..] == b[4..8];
    }
  }

  /** Text is its length in bytes, and then the bytes. */
  lemma TextIsWritten(k: Kind, t: seq<byte>)
    requires (k == String || k == Bytes) && |t| < WORD32
    ensures ScalarBytes(k, Text(t)) == Encode(|t|) + t
  {
  }

  // ---- Known messages ----

  function Named(name: string, number: nat, kind: Kind, shape: Shape): MessageType {
    var f := Field(name, number, kind, shape, false);
    MessageType(true, map[name := f], map[number := f])
  }

  lemma KnownNumbers()
    ensures Encode(1) == [1] && Encode(150) == [0x96, 0x01] && Encode(300) == [0xac, 0x02]
    ensures Encode(270) == [0x8e, 0x02] && Encode(86942) == [0x9e, 0xa7, 0x05]
    ensures TagBytes(1, 0) == [0x08] && TagBytes(2, 2) == [0x12] && TagBytes(3, 2) == [0x1a] && TagBytes(4, 2) == [0x22]
  {
    assert Encode(2) == [2] && Encode(679) == [0xa7] + Encode(5);
  }

  lemma KnownField(sch: Schema, t: MessageType, e: Entry)
    ensures EncodeMessage(sch, t, [e]) == EncodeEntry(sch, t, e)
  {
    assert [e][1..] == [];
    assert EncodeEntry(sch, t, e) + [] == EncodeEntry(sch, t, e);
  }

  // The first example of the protocol's documentation.
  function Test1(): MessageType { Named("a", 1, Kind.Int32, Single) }

  lemma KnownInt()
    ensures EncodeMessage(map[], Test1(), [Entry("a", Leaf(Int(150)))]) == [0x08, 0x96, 0x01]
  {
    KnownNumbers();
    KnownField(map[], Test1(), Entry("a", Leaf(Int(150))));
    WordIs(Kind.Int32, Int(150));
  }

  /** The examples of the protocol's documentation, byte by byte: a number, a string, a nested message and a
      packed list. */
  lemma KnownMessages()
    ensures EncodeMessage(map[], Test1(), [Entry("a", Leaf(Int(150)))]) == [0x08, 0x96, 0x01]
    ensures EncodeMessage(map[], Named("b", 2, String, Single),
              [Entry("b", Leaf(Text([0x74, 0x65, 0x73, 0x74, 0x69, 0x6e, 0x67])))]) ==
            [0x12, 0x07, 0x74, 0x65, 0x73, 0x74, 0x69, 0x6e, 0x67]
    ensures EncodeMessage(map["Test1" := Test1()], Named("c", 3, Msg("Test1"), Single),
              [Entry("c", Table([Entry("a", Leaf(Int(150)))]))]) ==
            [0x1a, 0x03, 0x08, 0x96, 0x01]
    ensures EncodeMessage(map[], Named("d", 4, Kind.Int32, Packed),
              [Entry("d", List([Leaf(Int(3)), Leaf(Int(270)), Leaf(Int(86942))]))]) ==
            [0x22, 0x06, 0x03, 0x8e, 0x02, 0x9e, 0xa7, 0x05]
  {
    KnownInt();
    KnownText();
    KnownNested();
    KnownPacked();
  }

  lemma KnownText()
    ensures EncodeMessage(map[], Named("b", 2, String, Single),
              [Entry("b", Leaf(Text([0x74, 0x65, 0x73, 0x74, 0x69, 0x6e, 0x67])))]) ==
            [0x12, 0x07, 0x74, 0x65, 0x73, 0x74, 0x69, 0x6e, 0x67]
  {
    var t: seq<byte> := [0x74, 0x65, 0x73, 0x74, 0x69, 0x6e, 0x67];
    KnownNumbers();
    KnownField(map[], Named("b", 2, String, Single), Entry("b", Leaf(Text(t))));
    TextIsWritten(String, t);
    assert Encode(7) == [7];
  }

  lemma KnownNested()
    ensures EncodeMessage(map["Test1" := Test1()], Named("c", 3, Msg("Test1"), Single),
              [Entry("c", Table([Entry("a", Leaf(Int(150)))]))]) ==
            [0x1a, 0x03, 0x08, 0x96, 0x01]
  {
    var sch := map["Test1" := Test1()];
    var inner := Entry("a", Leaf(Int(150)));
    KnownNumbers();
    KnownField(sch, Test1(), inner);
    WordIs(Kind.Int32, Int(150));
    assert EncodeMessage(sch, Test1(), [inner]) == [0x08, 0x96, 0x01];
    KnownField(sch, Named("c", 3, Msg("Test1"), Single), Entry("c", Table([inner])));
    assert Encode(3) == [3];
    assert FieldBytes(sch, Msg("Test1"), Table([inner])) == [3] + [0x08, 0x96, 0x01];
  }

  lemma KnownPacked()
    ensures EncodeMessage(map[], Named("d", 4, Kind.Int32, Packed),
              [Entry("d", List([Leaf(Int(3)), Leaf(Int(270)), Leaf(Int(86942))]))]) ==
            [0x22, 0x06, 0x03, 0x8e, 0x02, 0x9e, 0xa7, 0x05]
  {
    var items: seq<Lua> := [Leaf(Int(3)), Leaf(Int(270)), Leaf(Int(86942))];
    KnownNumbers();
    KnownField(map[], Named("d", 4, Kind.Int32, Packed), Entry("d", List(items)));
    WordIs(Kind.Int32, Int(3));
    WordIs(Kind.Int32, Int(270));
    WordIs(Kind.Int32, Int(86942));
    assert items[1..] == [Leaf(Int(270)), Leaf(Int(86942))] && items[1..][1..] == [Leaf(Int(86942))];
    assert items[1..][1..][1..] == [];
    assert Encode(3) == [3] && Encode(6) == [6];
    assert EncodePacked(map[], Kind.Int32, items[1..][1..]) == [0x9e, 0xa7, 0x05] + [];
    assert EncodePacked(map[], Kind.Int32, items[1..]) == [0x8e, 0x02, 0x9e, 0xa7, 0x05];
    assert EncodePacked(map[], Kind.Int32, items) == [0x03, 0x8e, 0x02, 0x9e, 0xa7, 0x05];
  }

  // What skipping does to a value of each wire type; a group is taken up to its own end tag.
  ghost predicate SkipsAsKnown(rest: seq<byte>) {
    && Skip([0x96, 0x01] + rest, 0x08) == 2
    && (|rest| >= 8 ==> Skip(rest, 0x09) == 8)
    && Skip([0x02, 0x61, 0x62] + rest, 0x0a) == 3
    && Skip([0x10, 0x05, 0x0c] + rest, 0x0b) == 3
    && Skip([0x10, 0x05, 0x14] + rest, 0x0b) == 0
    && (|rest| >= 4 ==> Skip(rest, 0x0d) == 4)
    && Skip(rest, 0x0c) == 0 && Skip(rest, 0x0e) == 0 && Skip(rest, 0x0f) == 0
  }

  lemma KnownSkips(rest: seq<byte>)
    ensures SkipsAsKnown(rest)
  {
    SkipTwo(rest);
    SkipRecord(rest);
    GroupOfOne(0x0c, rest);
    GroupOfOne(0x14, rest);
    SkipFixed(rest);
  }

  lemma SkipFixed(rest: seq<byte>)
    ensures |rest| >= 8 ==> Skip(rest, 0x09) == 8
    ensures |rest| >= 4 ==> Skip(rest, 0x0d) == 4
    ensures Skip(rest, 0x0c) == 0 && Skip(rest, 0x0e) == 0 && Skip(rest, 0x0f) == 0
  {
  }

  lemma SkipTwo(rest: seq<byte>)
    ensures Skip([0x96, 0x01] + rest, 0x08) == 2
  {
    assert ([0x96, 0x01] + rest)[1..] == [0x01] + rest;
    assert SkipVarintSize([0x01] + rest) == 1;
  }

  lemma SkipRecord(rest: seq<byte>)
    ensures Skip([0x02, 0x61, 0x62] + rest, 0x0a) == 3
  {
    OneByte(0x02, [0x61, 0x62] + rest);
    assert [0x02, 0x61, 0x62] + rest == [0x02] + ([0x61, 0x62] + rest);
  }

  lemma OneByte(c: byte, rest: seq<byte>)
    requires c < 0x80
    ensures Decode([c] + rest, 10) == Some(Varint.Read(c, 1)) && U32(c) == U64(c) == c
    ensures ([c] + rest)[1..] == rest
  {
  }

  lemma GroupOfOne(end: byte, rest: seq<byte>)
    requires end == 0x0c || end == 0x14
    ensures Skip([0x10, 0x05, end] + rest, 0x0b) == if end == 0x0c then 3 else 0
  {
    var b := [0x10, 0x05, end] + rest;
    assert b == [0x10] + ([0x05] + ([end] + rest));
    OneByte(0x10, [0x05] + ([end] + rest));
    OneByte(0x05, [end] + rest);
    OneByte(end, rest);
    assert b[2..] == [end] + rest;
    assert SkipGroup(b[2..], 1) == if end == 0x0c then 1 else 0;
    assert Skip(b[1..], 0x10) == 1;
    assert b[1..][1..] == b[2..];
    assert Type(0x10) == VARINT;
    assert SkipGroup(b, 1) == SkipTagged(b, 1, 1, 0x10);
  }
}
