/** Messages of the protobuf runtime: what a Lua table encodes to under a schema, what those bytes
    decode to, and that decoding gives the table back.

    A Lua table is a sequence of entries in the order in which `lua_next` happens to list them, so
    everything holds for any order of the fields. Decoding produces tables as finite maps. Enum
    values are numbers (`enum_as_value`), and defaults are filled in as the default mode does: for
    proto3 messages only. An ill-typed value raises an error in the source; here it encodes to
    nothing and is excluded where it matters.
 */
module Message {
  import opened Common
  import opened Words
  import opened Varint
  import opened Wire

  // ---- Schemas ----

  datatype Kind =
    | Int32 | UInt32 | SInt32 | Int64 | UInt64 | SInt64
    | Fixed32 | SFixed32 | Fixed64 | SFixed64
    | Bool | String | Bytes | Enum
    | Msg(typeName: string)

  // A map field names the kinds of the fields 1 and 2 of its entry type.
  datatype Shape = Single | Repeated | Packed | MapOf(key: Kind, value: Kind)

  datatype Field = Field(name: string, number: nat, kind: Kind, shape: Shape, inOneof: bool)

  // The two indexes of a type.
  datatype MessageType = MessageType(proto3: bool, byName: map<string, Field>, byNumber: map<nat, Field>)

  type Schema = map<string, MessageType>

  // ---- Values ----

  datatype Scalar = Int(i: int) | Boolean(b: bool) | Text(bytes: seq<byte>)

  // What is encoded.
  datatype Lua =
    | Leaf(scalar: Scalar)
    | Table(entries: seq<Entry>)
    | List(items: seq<Lua>)
    | Dict(pairs: seq<Pair>)

  datatype Entry = Entry(name: string, value: Lua)

  datatype Pair = Pair(key: Lua, value: Lua)

  // What decoding returns.
  datatype Value =
    | Plain(scalar: Scalar)
    | Rec(fields: map<string, Value>)
    | Arr(values: seq<Value>)
    | Assoc(assoc: map<Scalar, Value>)

  // ---- Scalars ----

  // pb_wtypebytype, as the number that goes into the tag.
  function WireOf(k: Kind): nat {
    match k
    case Fixed64 => 1
    case SFixed64 => 1
    case String => 2
    case Bytes => 2
    case Msg(_) => 2
    case Fixed32 => 5
    case SFixed32 => 5
    case _ => 0
  }

  // pb_pair
  function Tag(number: nat, wire: nat): nat { number * 8 + wire }

  // Values that a field of this kind is meant to hold. A 64-bit unsigned number is a Lua integer
  // with the same bits.
  predicate InRange(k: Kind, s: Scalar) {
    match k
    case Int32 => s.Int? && Words.Int32(s.i)
    case SInt32 => s.Int? && Words.Int32(s.i)
    case SFixed32 => s.Int? && Words.Int32(s.i)
    case UInt32 => s.Int? && 0 <= s.i < 0x1_0000_0000
    case Fixed32 => s.Int? && 0 <= s.i < 0x1_0000_0000
    case Int64 => s.Int? && Words.Int64(s.i)
    case UInt64 => s.Int? && Words.Int64(s.i)
    case SInt64 => s.Int? && Words.Int64(s.i)
    case Fixed64 => s.Int? && Words.Int64(s.i)
    case SFixed64 => s.Int? && Words.Int64(s.i)
    case Bool => s.Boolean?
    case String => s.Text? && |s.bytes| < 0x1_0000_0000
    case Bytes => s.Text? && |s.bytes| < 0x1_0000_0000
    case Enum => s.Int? && 0 <= s.i < 0x8000_0000
    case Msg(_) => false
  }

  // lpb_addtype and lpbE_enum
  function ScalarBytes(k: Kind, s: Scalar): seq<byte> {
    match s
    case Boolean(b) => Encode(if b then 1 else 0)
    case Text(t) => Wire.Prefixed(t)
    case Int(i) =>
      match k
      case Int32 => Encode(ExpandSig(U32(i)))
      case UInt32 => Encode(U32(i))
      case SInt32 => Encode(EncodeSint32(Signed32(U32(i))))
      case SInt64 => Encode(EncodeSint64(Signed64(U64(i))))
      case Fixed32 => Fixed(U32(i), 4)
      case SFixed32 => Fixed(U32(i), 4)
      case Fixed64 => Fixed(U64(i), 8)
      case SFixed64 => Fixed(U64(i), 8)
      case _ => Encode(U64(i))
  }

  // Values that proto3 leaves out; enums are always written.
  predicate IsZero(k: Kind, s: Scalar) {
    k != Enum && (s == Int(0) || s == Boolean(false) || s == Text([]))
  }

  // lpb_readtype, and the enum case of lpbD_rawfield
  function ReadScalar(k: Kind, b: seq<byte>): (r: Option<Got<Scalar>>)
    ensures r.Some? ==> 0 < r.value.size <= |b|
  {
    DecodeIsLocal(b, 10);
    match k
    case Fixed32 => if |b| < 4 then None else Some(Got(Int(FromFixed(b[..4])), 4))
    case SFixed32 =>
      FromFixedBound(b[..if |b| < 4 then |b| else 4]);
      Pow256Values();
      if |b| < 4 then None else Some(Got(Int(Signed32(FromFixed(b[..4]))), 4))
    case Fixed64 =>
      FromFixedBound(b[..if |b| < 8 then |b| else 8]);
      Pow256Values();
      if |b| < 8 then None else Some(Got(Int(Signed64(FromFixed(b[..8]))), 8))
    case SFixed64 =>
      FromFixedBound(b[..if |b| < 8 then |b| else 8]);
      Pow256Values();
      if |b| < 8 then None else Some(Got(Int(Signed64(FromFixed(b[..8]))), 8))
    case String =>
      (match ReadDelimited(b) case None => None case Some(p) => Some(Got(Text(p.bytes), p.size)))
    case Bytes =>
      (match ReadDelimited(b) case None => None case Some(p) => Some(Got(Text(p.bytes), p.size)))
    case Msg(_) => None
    case _ =>
      match Decode(b, 10)
      case None => None
      case Some(r) => Some(Got(FromWord(k, U64(r.value)), r.size))
  }

  // A 64-bit varint as a value of this kind.
  function FromWord(k: Kind, w: nat): Scalar
    requires w < 0x1_0000_0000_0000_0000
  {
    match k
    case Bool => Boolean(w != 0)
    case Int32 => Int(Signed32(U32(w)))
    case UInt32 => Int(U32(w))
    case SInt32 => Int(DecodeSint32(U32(w)))
    case SInt64 => Int(DecodeSint64(w))
    case _ => Int(Signed64(w))
  }

  // The word that a varint kind is written as.
  function ToWord(k: Kind, s: Scalar): nat
    requires InRange(k, s) && !s.Text?
  {
    match s
    case Boolean(b) => if b then 1 else 0
    case Int(i) =>
      match k
      case Int32 => ExpandSig(U32(i))
      case UInt32 => U32(i)
      case SInt32 => EncodeSint32(Signed32(U32(i)))
      case SInt64 => EncodeSint64(Signed64(U64(i)))
      case _ => U64(i)
  }

  // Sign extension keeps the low 32 bits.
  lemma LowOfExpandSig(u: nat)
    requires u < 0x1_0000_0000
    ensures U32(ExpandSig(u)) == u
  {
    ExpandSigIsSignExtension(u);
    if u >= 0x8000_0000 {
      Same32(ExpandSig(u), u, 0xFFFF_FFFF);
    }
  }

  lemma WordRoundTrip(k: Kind, s: Scalar)
    requires InRange(k, s) && WireOf(k) == 0
    ensures ToWord(k, s) < 0x1_0000_0000_0000_0000
    ensures FromWord(k, U64(ToWord(k, s))) == s
  {
    match s
    case Boolean(_) =>
    case Int(i) =>
      match k
      case Int32 =>
        Signed32OfU32(i);
        LowOfExpandSig(U32(i));
      case UInt32 =>
      case SInt32 =>
        Signed32OfU32(i);
        Sint32RoundTrip(i, 0);
      case SInt64 =>
        Signed64OfU64(i);
        Sint64RoundTrip(i, 0);
      case _ => Signed64OfU64(i);
  }

  lemma FixedScalarRoundTrip(k: Kind, s: Scalar, rest: seq<byte>)
    requires InRange(k, s) && (WireOf(k) == 1 || WireOf(k) == 5)
    ensures ReadScalar(k, ScalarBytes(k, s) + rest) == Some(Got(s, |ScalarBytes(k, s)|))
  {
    Pow256Values();
    var w := if WireOf(k) == 5 then U32(s.i) else U64(s.i);
    var n := if WireOf(k) == 5 then 4 else 8;
    FixedRoundTrip(w, n);
    assert (ScalarBytes(k, s) + rest)[..n] == Fixed(w, n);
    if WireOf(k) == 1 || k == SFixed32 {
      if k == SFixed32 {
        Signed32OfU32(s.i);
      } else {
        Signed64OfU64(s.i);
      }
    }
  }

  // A scalar that is written and read back with the same kind is unchanged.
  lemma ScalarRoundTrip(k: Kind, s: Scalar, rest: seq<byte>)
    requires InRange(k, s)
    ensures ReadScalar(k, ScalarBytes(k, s) + rest) == Some(Got(s, |ScalarBytes(k, s)|))
  {
    if WireOf(k) == 0 {
      WordRoundTrip(k, s);
      assert ScalarBytes(k, s) == Encode(ToWord(k, s));
      TenGroups();
      DecodeEncode(ToWord(k, s), rest, 10);
    } else if WireOf(k) == 2 {
      PrefixedIsDelimited(s.bytes);
      DelimitedRoundTrip(s.bytes, rest);
    } else {
      FixedScalarRoundTrip(k, s, rest);
    }
  }

  // ---- Encoding ----

  function TagBytes(number: nat, wire: nat): seq<byte> { Encode(Tag(number, wire)) }

  // lpb_encode: the entries in the order in which the table is traversed.
  function EncodeMessage(sch: Schema, t: MessageType, entries: seq<Entry>): seq<byte>
    decreases entries, 0
  {
    if entries == [] then []
    else EncodeEntry(sch, t, entries[0]) + EncodeMessage(sch, t, entries[1..])
  }

  // An entry that is not a field is skipped.
  function EncodeEntry(sch: Schema, t: MessageType, e: Entry): seq<byte>
    decreases e, 2
  {
    if e.name !in t.byName then []
    else
      var f := t.byName[e.name];
      match f.shape
      case Single => TagField(sch, f.number, f.kind, e.value, t.proto3 && !f.inOneof)
      case Repeated => if e.value.List? then EncodeItems(sch, f, e.value.items) else []
      case Packed =>
        if e.value.List? then TagBytes(f.number, 2) + Delimited(EncodePacked(sch, f.kind, e.value.items)) else []
      case MapOf(_, _) => if e.value.Dict? then EncodePairs(sch, f, e.value.pairs) else []
  }

  // lpbE_field
  function FieldBytes(sch: Schema, k: Kind, v: Lua): seq<byte>
    decreases v, 0
  {
    match k
    case Msg(n) => if v.Table? && n in sch then Delimited(EncodeMessage(sch, sch[n], v.entries)) else []
    case _ => if v.Leaf? then ScalarBytes(k, v.scalar) else []
  }

  // lpbE_tagfield: with `elide`, a scalar that is zero leaves no trace, not even its tag.
  function TagField(sch: Schema, number: nat, k: Kind, v: Lua, elide: bool): seq<byte>
    decreases v, 1
  {
    if elide && v.Leaf? && IsZero(k, v.scalar) then []
    else TagBytes(number, WireOf(k)) + FieldBytes(sch, k, v)
  }

  // lpbE_repeated, unpacked
  function EncodeItems(sch: Schema, f: Field, items: seq<Lua>): seq<byte>
    decreases items, 2
  {
    if items == [] then []
    else TagField(sch, f.number, f.kind, items[0], false) + EncodeItems(sch, f, items[1..])
  }

  // lpbE_repeated, packed: the values without tags.
  function EncodePacked(sch: Schema, k: Kind, items: seq<Lua>): seq<byte>
    decreases items, 2
  {
    if items == [] then [] else FieldBytes(sch, k, items[0]) + EncodePacked(sch, k, items[1..])
  }

  // lpbE_map: each pair is a record with the fields 1 and 2.
  function EncodePairs(sch: Schema, f: Field, pairs: seq<Pair>): seq<byte>
    requires f.shape.MapOf?
    decreases pairs, 3
  {
    if pairs == [] then []
    else TagBytes(f.number, 2) + Delimited(PairBytes(sch, f, pairs[0])) + EncodePairs(sch, f, pairs[1..])
  }

  function PairBytes(sch: Schema, f: Field, p: Pair): seq<byte>
    requires f.shape.MapOf?
    decreases p, 2
  {
    TagField(sch, 1, f.shape.key, p.key, true) + TagField(sch, 2, f.shape.value, p.value, true)
  }

  // ---- Decoding ----

  // lpb_pushdefault with is_proto3: the value of an absent field, if it has one.
  function Default(k: Kind, s: Shape): Option<Value> {
    match s
    case Repeated => Some(Arr([]))
    case Packed => Some(Arr([]))
    case MapOf(_, _) => Some(Assoc(map[]))
    case Single =>
      match k
      case Msg(_) => None
      case Bool => Some(Plain(Boolean(false)))
      case String => Some(Plain(Text([])))
      case Bytes => Some(Plain(Text([])))
      case _ => Some(Plain(Int(0)))
  }

  // lpb_pushtypetable: the table that decoding starts from.
  function Defaults(t: MessageType): map<string, Value> {
    if !t.proto3 then map[]
    else
      map n | n in t.byName && !t.byName[n].inOneof && Default(t.byName[n].kind, t.byName[n].shape).Some?
          :: Default(t.byName[n].kind, t.byName[n].shape).value
  }

  // lpb_fetchtable
  function ArrayAt(m: map<string, Value>, name: string): seq<Value> {
    if name in m && m[name].Arr? then m[name].values else []
  }

  function AssocAt(m: map<string, Value>, name: string): map<Scalar, Value> {
    if name in m && m[name].Assoc? then m[name].assoc else map[]
  }

  // lpbD_rawfield
  function ReadValue(sch: Schema, k: Kind, b: seq<byte>): (r: Option<Got<Value>>)
    ensures r.Some? ==> 0 < r.value.size <= |b|
    decreases |b|, 0
  {
    match k
    case Msg(n) =>
      (match ReadDelimited(b)
       case None => None
       case Some(p) =>
         if n !in sch then None
         else
           match DecodeMessage(sch, sch[n], p.bytes, Defaults(sch[n]))
           case None => None
           case Some(m) => Some(Got(Rec(m), p.size)))
    case _ =>
      match ReadScalar(k, b)
      case None => None
      case Some(r) => Some(Got(Plain(r.value), r.size))
  }

  // lpbD_field: the wire type must be the kind's.
  function ReadField(sch: Schema, k: Kind, tag: nat, b: seq<byte>): (r: Option<Got<Value>>)
    ensures r.Some? ==> 0 < r.value.size <= |b|
    decreases |b|, 1
  {
    if tag % 8 == WireOf(k) then ReadValue(sch, k, b) else None
  }

  // The values of a packed field, up to the end of its record.
  function ReadPacked(sch: Schema, k: Kind, b: seq<byte>): Option<seq<Value>>
    decreases |b|, 1
  {
    if b == [] then Some([])
    else
      match ReadValue(sch, k, b)
      case None => None
      case Some(v) =>
        match ReadPacked(sch, k, b[v.size..])
        case None => None
        case Some(vs) => Some([v.value] + vs)
  }

  // What the loop of lpbD_map has come to: the key and the value, if they were seen.
  datatype Seen = Seen(key: Option<Value>, value: Option<Value>)

  function HalfKind(key: Kind, value: Kind, n: nat): Kind {
    if n == 1 then key else value
  }

  function With(seen: Seen, n: nat, x: Value): Seen {
    if n == 1 then seen.(key := Some(x)) else seen.(value := Some(x))
  }

  function ReadPair(sch: Schema, key: Kind, value: Kind, b: seq<byte>, seen: Seen): Option<Seen>
    decreases |b|, 2
  {
    DecodeIsLocal(b, 10);
    match Decode(b, 10)
    case None => Some(seen)
    case Some(r) =>
      var tag := U32(r.value);
      var rest := b[r.size..];
      if Number(tag) != 1 && Number(tag) != 2 then ReadPair(sch, key, value, rest, seen)
      else
        match ReadField(sch, HalfKind(key, value, Number(tag)), tag, rest)
        case None => None
        case Some(v) => ReadPair(sch, key, value, rest[v.size..], With(seen, Number(tag), v.value))
  }

  // The pair goes into the table unless one half is missing and has no default.
  function AddPair(m: map<Scalar, Value>, key: Kind, value: Kind, seen: Seen): map<Scalar, Value> {
    var k := if seen.key.Some? then seen.key else Default(key, Single);
    var v := if seen.value.Some? then seen.value else Default(value, Single);
    if k.Some? && v.Some? && k.value.Plain? then m[k.value.scalar := v.value] else m
  }

  // One field of lpbD_message after its tag: the new table and the bytes that the value took.
  function DecodeField(sch: Schema, f: Field, tag: nat, b: seq<byte>, m: map<string, Value>):
    (r: Option<Got<map<string, Value>>>)
    ensures r.Some? ==> r.value.size <= |b|
    decreases |b|, 3
  {
    match f.shape
    case MapOf(key, value) =>
      (match ReadDelimited(b)
       case None => None
       case Some(p) =>
         match ReadPair(sch, key, value, p.bytes, Seen(None, None))
         case None => None
         case Some(seen) =>
           Some(Got(m[f.name := Assoc(AddPair(AssocAt(m, f.name), key, value, seen))], p.size)))
    case Single =>
      (match ReadField(sch, f.kind, tag, b)
       case None => None
       case Some(v) => Some(Got(m[f.name := v.value], v.size)))
    case _ =>
      if tag % 8 != 2 || (f.shape == Repeated && WireOf(f.kind) == 2) then
        match ReadField(sch, f.kind, tag, b)
        case None => None
        case Some(v) => Some(Got(m[f.name := Arr(ArrayAt(m, f.name) + [v.value])], v.size))
      else
        match ReadDelimited(b)
        case None => None
        case Some(p) =>
          match ReadPacked(sch, f.kind, p.bytes)
          case None => None
          case Some(vs) => Some(Got(m[f.name := Arr(ArrayAt(m, f.name) + vs)], p.size))
  }

  // lpbD_message. A field that is not in the schema is skipped, and if that fails, only its tag is.
  function DecodeMessage(sch: Schema, t: MessageType, b: seq<byte>, m: map<string, Value>): Option<map<string, Value>>
    decreases |b|, 4
  {
    DecodeIsLocal(b, 10);
    match Decode(b, 10)
    case None => Some(m)
    case Some(r) =>
      var tag := U32(r.value);
      var rest := b[r.size..];
      if Number(tag) !in t.byNumber then DecodeMessage(sch, t, rest[Skip(rest, tag)..], m)
      else
        match DecodeField(sch, t.byNumber[Number(tag)], tag, rest, m)
        case None => None
        case Some(g) => DecodeMessage(sch, t, rest[g.size..], g.value)
  }

  // ---- What is meant ----

  ghost predicate GoodType(t: MessageType) {
    && (forall n | n in t.byName ::
          && t.byName[n].name == n && 0 < t.byName[n].number < 0x2000_0000
          && t.byName[n].number in t.byNumber && t.byNumber[t.byName[n].number] == t.byName[n]
          && (t.byName[n].shape == Packed ==> WireOf(t.byName[n].kind) != 2)
          && (t.byName[n].shape.MapOf? ==> !t.byName[n].shape.key.Msg?))
    && (forall i | i in t.byNumber ::
          t.byNumber[i].number == i && t.byNumber[i].name in t.byName && t.byName[t.byNumber[i].name] == t.byNumber[i])
  }

  ghost predicate GoodSchema(sch: Schema) { forall n | n in sch :: GoodType(sch[n]) }

  ghost predicate Distinct(entries: seq<Entry>) {
    forall i, j | 0 <= i < j < |entries| :: entries[i].name != entries[j].name
  }

  ghost predicate DistinctKeys(pairs: seq<Pair>) {
    forall i, j | 0 <= i < j < |pairs| :: pairs[i].key != pairs[j].key
  }

  const SIZE_LIMIT: nat := 0x1_0000_0000_0000_0000

  // The value has the type of the field, numbers are in range and records are not too long.
  ghost predicate Fits(sch: Schema, k: Kind, v: Lua)
    decreases v, 0
  {
    match k
    case Msg(n) =>
      && v.Table? && n in sch && FitsMessage(sch, sch[n], v.entries)
      && |EncodeMessage(sch, sch[n], v.entries)| < SIZE_LIMIT
    case _ => v.Leaf? && InRange(k, v.scalar)
  }

  ghost predicate FitsMessage(sch: Schema, t: MessageType, entries: seq<Entry>)
    decreases entries, 0
  {
    Distinct(entries) && forall i | 0 <= i < |entries| :: FitsEntry(sch, t, entries[i])
  }

  ghost predicate FitsEntry(sch: Schema, t: MessageType, e: Entry)
    decreases e, 2
  {
    e.name in t.byName ==>
      var f := t.byName[e.name];
      match f.shape
      case Single => Fits(sch, f.kind, e.value)
      case Repeated => e.value.List? && FitsItems(sch, f.kind, e.value.items)
      case Packed =>
        && e.value.List? && FitsItems(sch, f.kind, e.value.items)
        && |EncodePacked(sch, f.kind, e.value.items)| < SIZE_LIMIT
      case MapOf(_, _) =>
        e.value.Dict? && DistinctKeys(e.value.pairs)
        && forall i | 0 <= i < |e.value.pairs| :: FitsPair(sch, f, e.value.pairs[i])
  }

  ghost predicate FitsItems(sch: Schema, k: Kind, items: seq<Lua>)
    decreases items, 1
  {
    forall i | 0 <= i < |items| :: Fits(sch, k, items[i])
  }

  ghost predicate FitsPair(sch: Schema, f: Field, p: Pair)
    requires f.shape.MapOf?
    decreases p, 2
  {
    && !f.shape.key.Msg?
    && Fits(sch, f.shape.key, p.key) && Fits(sch, f.shape.value, p.value)
    && |PairBytes(sch, f, p)| < SIZE_LIMIT
  }

  // The value as decoding should return it.
  ghost function Meaning(sch: Schema, k: Kind, v: Lua): Value
    requires Fits(sch, k, v)
    decreases v, 0
  {
    match k
    case Msg(n) => Rec(MeaningOf(sch, sch[n], v.entries, Defaults(sch[n])))
    case _ => Plain(v.scalar)
  }

  // The table with these entries put into it, one after the other.
  ghost function MeaningOf(sch: Schema, t: MessageType, entries: seq<Entry>, m: map<string, Value>): map<string, Value>
    requires FitsMessage(sch, t, entries)
    decreases entries, 0
  {
    if entries == [] then m
    else
      assert FitsEntry(sch, t, entries[0]);
      assert FitsMessage(sch, t, entries[1..]) by { RestFits(sch, t, entries); }
      MeaningOf(sch, t, entries[1..], Put(sch, t, entries[0], m))
  }

  lemma RestFits(sch: Schema, t: MessageType, entries: seq<Entry>)
    requires FitsMessage(sch, t, entries) && entries != []
    ensures FitsMessage(sch, t, entries[1..])
  {
    forall i | 0 <= i < |entries| - 1 ensures FitsEntry(sch, t, entries[1..][i]) {
      assert FitsEntry(sch, t, entries[i + 1]);
    }
  }

  // What a field of the table should hold.
  ghost function FieldMeaning(sch: Schema, t: MessageType, e: Entry): Value
    requires FitsEntry(sch, t, e) && e.name in t.byName
    decreases e, 2
  {
    var f := t.byName[e.name];
    match f.shape
    case Single => Meaning(sch, f.kind, e.value)
    case Repeated => Arr(MeaningOfItems(sch, f.kind, e.value.items))
    case Packed => Arr(MeaningOfItems(sch, f.kind, e.value.items))
    case MapOf(_, _) => Assoc(MeaningOfPairs(sch, f, e.value.pairs, map[]))
  }

  // An empty list or map that is not written at all.
  predicate NotWritten(t: MessageType, e: Entry) {
    && e.name in t.byName
    && ((t.byName[e.name].shape == Repeated && e.value == List([])) ||
        (t.byName[e.name].shape.MapOf? && e.value == Dict([])))
  }

  // A field that is not in the schema is dropped.
  ghost function Put(sch: Schema, t: MessageType, e: Entry, m: map<string, Value>): map<string, Value>
    requires FitsEntry(sch, t, e)
    decreases e, 3
  {
    if e.name !in t.byName || NotWritten(t, e) then m else m[e.name := FieldMeaning(sch, t, e)]
  }

  ghost function MeaningOfItems(sch: Schema, k: Kind, items: seq<Lua>): (r: seq<Value>)
    requires FitsItems(sch, k, items)
    ensures |r| == |items|
    decreases items, 1
  {
    if items == [] then []
    else
      assert Fits(sch, k, items[0]);
      assert FitsItems(sch, k, items[1..]) by {
        assert forall i | 0 <= i < |items| - 1 :: items[1..][i] == items[i + 1];
      }
      [Meaning(sch, k, items[0])] + MeaningOfItems(sch, k, items[1..])
  }

  ghost function MeaningOfPairs(sch: Schema, f: Field, pairs: seq<Pair>, m: map<Scalar, Value>): map<Scalar, Value>
    requires f.shape.MapOf? && forall i | 0 <= i < |pairs| :: FitsPair(sch, f, pairs[i])
    decreases pairs, 3
  {
    if pairs == [] then m
    else
      assert FitsPair(sch, f, pairs[0]);
      assert forall i | 0 <= i < |pairs| - 1 :: pairs[1..][i] == pairs[i + 1];
      assert Fits(sch, f.shape.key, pairs[0].key);
      MeaningOfPairs(sch, f, pairs[1..], m[pairs[0].key.scalar := MeaningOfPair(sch, f, pairs[0])])
  }

  ghost function MeaningOfPair(sch: Schema, f: Field, p: Pair): Value
    requires f.shape.MapOf? && FitsPair(sch, f, p)
    decreases p, 2
  {
    Meaning(sch, f.shape.value, p.value)
  }

  // ---- The round trip ----

  lemma TagRead(number: nat, wire: nat, rest: seq<byte>)
    requires 0 < number < 0x2000_0000 && wire < 8
    ensures Decode(TagBytes(number, wire) + rest, 10) ==
            Some(Varint.Read(Tag(number, wire), |TagBytes(number, wire)|))
    ensures U32(Tag(number, wire)) == Tag(number, wire) && Number(Tag(number, wire)) == number
    ensures Tag(number, wire) % 8 == wire
    ensures (TagBytes(number, wire) + rest)[|TagBytes(number, wire)|..] == rest
  {
    TenGroups();
    DecodeEncode(Tag(number, wire), rest, 10);
  }

  // A known field whose value reads as g: decoding goes on after it with g's table.
  lemma FieldStep(sch: Schema, t: MessageType, f: Field, wire: nat, v: seq<byte>, rest: seq<byte>,
                  m: map<string, Value>, m': map<string, Value>)
    requires 0 < f.number < 0x2000_0000 && wire < 8
    requires f.number in t.byNumber && t.byNumber[f.number] == f
    requires DecodeField(sch, f, Tag(f.number, wire), v + rest, m) == Some(Got(m', |v|))
    ensures DecodeMessage(sch, t, TagBytes(f.number, wire) + v + rest, m) == DecodeMessage(sch, t, rest, m')
  {
    var b := TagBytes(f.number, wire) + v + rest;
    assert b == TagBytes(f.number, wire) + (v + rest);
    TagRead(f.number, wire, v + rest);
    assert (v + rest)[|v|..] == rest;
  }

  // The fields that are still to come have their defaults.
  ghost predicate Untouched(t: MessageType, entries: seq<Entry>, m: map<string, Value>) {
    forall i | 0 <= i < |entries| ::
      var n := entries[i].name;
      if n in Defaults(t) then n in m && m[n] == Defaults(t)[n] else n !in m
  }

  lemma {:induction false} ValueRoundTrip(sch: Schema, k: Kind, v: Lua, rest: seq<byte>)
    requires GoodSchema(sch) && Fits(sch, k, v)
    ensures ReadValue(sch, k, FieldBytes(sch, k, v) + rest) ==
            Some(Got(Meaning(sch, k, v), |FieldBytes(sch, k, v)|))
    decreases v, 0
  {
    match k
    case Msg(n) =>
      var b := EncodeMessage(sch, sch[n], v.entries);
      DelimitedRoundTrip(b, rest);
      MessageRoundTrip(sch, sch[n], v.entries, Defaults(sch[n]));
    case _ => ScalarRoundTrip(k, v.scalar, rest);
  }

  lemma {:induction false} MessageRoundTrip(sch: Schema, t: MessageType, entries: seq<Entry>, m: map<string, Value>)
    requires GoodSchema(sch) && GoodType(t) && FitsMessage(sch, t, entries) && Untouched(t, entries, m)
    ensures DecodeMessage(sch, t, EncodeMessage(sch, t, entries), m) == Some(MeaningOf(sch, t, entries, m))
    decreases entries, 0
  {
    if entries != [] {
      var e := entries[0];
      assert FitsEntry(sch, t, e);
      RestFits(sch, t, entries);
      EntryRoundTrip(sch, t, e, EncodeMessage(sch, t, entries[1..]), m);
      PutTouchesOne(sch, t, entries, m);
      MessageRoundTrip(sch, t, entries[1..], Put(sch, t, e, m));
    }
  }

  lemma PutTouchesOne(sch: Schema, t: MessageType, entries: seq<Entry>, m: map<string, Value>)
    requires entries != [] && FitsEntry(sch, t, entries[0]) && Distinct(entries) && Untouched(t, entries, m)
    ensures Untouched(t, entries[1..], Put(sch, t, entries[0], m))
  {
    forall i | 0 <= i < |entries| - 1
      ensures entries[1..][i].name != entries[0].name && entries[1..][i] == entries[i + 1]
    {
    }
  }

  lemma {:induction false} EntryRoundTrip(sch: Schema, t: MessageType, e: Entry, rest: seq<byte>, m: map<string, Value>)
    requires GoodSchema(sch) && GoodType(t) && FitsEntry(sch, t, e) && Untouched(t, [e], m)
    ensures DecodeMessage(sch, t, EncodeEntry(sch, t, e) + rest, m) == DecodeMessage(sch, t, rest, Put(sch, t, e, m))
    decreases e, 2
  {
    if e.name !in t.byName {
      assert [] + rest == rest;
    } else {
      var f := t.byName[e.name];
      StartsEmpty(t, e, m);
      match f.shape
      case Single => SingleRoundTrip(sch, t, f, e.value, rest, m);
      case Repeated =>
        ItemsRoundTrip(sch, t, f, e.value.items, rest, m);
        NothingBefore(MeaningOfItems(sch, f.kind, e.value.items));
      case Packed => PackedRoundTrip(sch, t, f, e.value.items, rest, m);
      case MapOf(_, _) => PairsRoundTrip(sch, t, f, e.value.pairs, rest, m);
    }
  }

  lemma NothingBefore(s: seq<Value>)
    ensures [] + s == s
  {
  }

  lemma StartsEmpty(t: MessageType, e: Entry, m: map<string, Value>)
    requires GoodType(t) && e.name in t.byName && Untouched(t, [e], m)
    ensures t.byName[e.name].name == e.name && IsFieldOf(t, t.byName[e.name])
    ensures t.byName[e.name].shape != Single ==> AssocAt(m, e.name) == map[] && ArrayAt(m, e.name) == []
    ensures Untouched(t, [Entry(e.name, e.value)], m)
  {
    assert [e][0].name == e.name;
  }

  ghost predicate IsFieldOf(t: MessageType, f: Field) {
    GoodType(t) && f.name in t.byName && t.byName[f.name] == f
  }

  // A scalar that is elided is its field's default.
  lemma ZeroIsDefault(k: Kind, s: Scalar)
    requires InRange(k, s) && IsZero(k, s)
    ensures Default(k, Single) == Some(Plain(s))
  {
  }

  lemma {:induction false} SingleRoundTrip(sch: Schema, t: MessageType, f: Field, v: Lua, rest: seq<byte>,
                                           m: map<string, Value>)
    requires GoodSchema(sch) && IsFieldOf(t, f) && f.shape == Single && Fits(sch, f.kind, v)
    requires Untouched(t, [Entry(f.name, v)], m)
    ensures DecodeMessage(sch, t, TagField(sch, f.number, f.kind, v, t.proto3 && !f.inOneof) + rest, m) ==
            DecodeMessage(sch, t, rest, m[f.name := Meaning(sch, f.kind, v)])
    decreases v, 1
  {
    if t.proto3 && !f.inOneof && v.Leaf? && IsZero(f.kind, v.scalar) {
      ElidedIsThere(sch, t, f, v, m);
      assert [] + rest == rest;
    } else {
      var b := FieldBytes(sch, f.kind, v);
      ValueRoundTrip(sch, f.kind, v, rest);
      TagRead(f.number, WireOf(f.kind), []);
      FieldStep(sch, t, f, WireOf(f.kind), b, rest, m, m[f.name := Meaning(sch, f.kind, v)]);
    }
  }

  // What proto3 elides is the default that the table already holds.
  lemma ElidedIsThere(sch: Schema, t: MessageType, f: Field, v: Lua, m: map<string, Value>)
    requires IsFieldOf(t, f) && f.shape == Single && Fits(sch, f.kind, v)
    requires t.proto3 && !f.inOneof && v.Leaf? && IsZero(f.kind, v.scalar)
    requires Untouched(t, [Entry(f.name, v)], m)
    ensures m[f.name := Meaning(sch, f.kind, v)] == m
  {
    ZeroIsDefault(f.kind, v.scalar);
    assert [Entry(f.name, v)][0].name == f.name;
  }

  lemma {:induction false} ItemRoundTrip(sch: Schema, t: MessageType, f: Field, item: Lua, rest: seq<byte>,
                                         m: map<string, Value>)
    requires GoodSchema(sch) && IsFieldOf(t, f) && f.shape == Repeated && Fits(sch, f.kind, item)
    ensures DecodeMessage(sch, t, TagField(sch, f.number, f.kind, item, false) + rest, m) ==
            DecodeMessage(sch, t, rest, m[f.name := Arr(ArrayAt(m, f.name) + [Meaning(sch, f.kind, item)])])
    decreases item, 1
  {
    var b := FieldBytes(sch, f.kind, item);
    ValueRoundTrip(sch, f.kind, item, rest);
    TagRead(f.number, WireOf(f.kind), []);
    FieldStep(sch, t, f, WireOf(f.kind), b, rest, m,
              m[f.name := Arr(ArrayAt(m, f.name) + [Meaning(sch, f.kind, item)])]);
  }

  // The array grows at its end.
  lemma Appended(m: map<string, Value>, name: string, v: Value, vs: seq<Value>)
    ensures var m' := m[name := Arr(ArrayAt(m, name) + [v])];
            m'[name := Arr(ArrayAt(m', name) + vs)] == m[name := Arr(ArrayAt(m, name) + ([v] + vs))]
  {
    assert ArrayAt(m, name) + [v] + vs == ArrayAt(m, name) + ([v] + vs);
  }

  lemma Assoc3(a: seq<byte>, b: seq<byte>, c: seq<byte>)
    ensures a + b + c == a + (b + c)
  {
  }

  lemma {:induction false} ItemsRoundTrip(sch: Schema, t: MessageType, f: Field, items: seq<Lua>, rest: seq<byte>,
                                          m: map<string, Value>)
    requires GoodSchema(sch) && IsFieldOf(t, f) && f.shape == Repeated && FitsItems(sch, f.kind, items)
    ensures DecodeMessage(sch, t, EncodeItems(sch, f, items) + rest, m) ==
            DecodeMessage(sch, t, rest,
              if items == [] then m
              else m[f.name := Arr(ArrayAt(m, f.name) + MeaningOfItems(sch, f.kind, items))])
    decreases items, 2
  {
    if items == [] {
      assert [] + rest == rest;
    } else {
      assert Fits(sch, f.kind, items[0]);
      RestItemsFit(sch, f.kind, items);
      var v, vs := Meaning(sch, f.kind, items[0]), MeaningOfItems(sch, f.kind, items[1..]);
      var more := EncodeItems(sch, f, items[1..]);
      Assoc3(TagField(sch, f.number, f.kind, items[0], false), more, rest);
      ItemRoundTrip(sch, t, f, items[0], more + rest, m);
      ItemsRoundTrip(sch, t, f, items[1..], rest, m[f.name := Arr(ArrayAt(m, f.name) + [v])]);
      Appended(m, f.name, v, vs);
      if items[1..] == [] {
        assert [v] + vs == [v];
      }
    }
  }

  lemma RestItemsFit(sch: Schema, k: Kind, items: seq<Lua>)
    requires FitsItems(sch, k, items) && items != []
    ensures FitsItems(sch, k, items[1..])
  {
    assert forall i | 0 <= i < |items| - 1 :: items[1..][i] == items[i + 1];
  }

  lemma {:induction false} PackedItems(sch: Schema, k: Kind, items: seq<Lua>)
    requires GoodSchema(sch) && FitsItems(sch, k, items)
    ensures ReadPacked(sch, k, EncodePacked(sch, k, items)) == Some(MeaningOfItems(sch, k, items))
    decreases items, 2
  {
    if items != [] {
      assert Fits(sch, k, items[0]);
      RestItemsFit(sch, k, items);
      var b, more := FieldBytes(sch, k, items[0]), EncodePacked(sch, k, items[1..]);
      ValueRoundTrip(sch, k, items[0], more);
      PackedItems(sch, k, items[1..]);
      assert (b + more)[|b|..] == more;
    }
  }

  lemma {:induction false} PackedRoundTrip(sch: Schema, t: MessageType, f: Field, items: seq<Lua>, rest: seq<byte>,
                                           m: map<string, Value>)
    requires GoodSchema(sch) && IsFieldOf(t, f) && f.shape == Packed && FitsItems(sch, f.kind, items)
    requires |EncodePacked(sch, f.kind, items)| < SIZE_LIMIT && ArrayAt(m, f.name) == []
    ensures DecodeMessage(sch, t, TagBytes(f.number, 2) + Delimited(EncodePacked(sch, f.kind, items)) + rest, m) ==
            DecodeMessage(sch, t, rest, m[f.name := Arr(MeaningOfItems(sch, f.kind, items))])
    decreases items, 3
  {
    var b := EncodePacked(sch, f.kind, items);
    var vs := MeaningOfItems(sch, f.kind, items);
    PackedItems(sch, f.kind, items);
    DelimitedRoundTrip(b, rest);
    TagRead(f.number, 2, []);
    assert [] + vs == vs;
    FieldStep(sch, t, f, 2, Delimited(b), rest, m, m[f.name := Arr(vs)]);
  }

  // One half of a map entry: present, or elided and then its kind's default.
  ghost predicate Half(sch: Schema, k: Kind, v: Lua, seen: Option<Value>)
    requires Fits(sch, k, v)
  {
    seen == Some(Meaning(sch, k, v)) || (seen == None && Default(k, Single) == Some(Meaning(sch, k, v)))
  }

  lemma HalfPresent(sch: Schema, key: Kind, value: Kind, n: nat, b: seq<byte>, x: Value, rest: seq<byte>, seen: Seen)
    requires 1 <= n <= 2 && ReadValue(sch, HalfKind(key, value, n), b + rest) == Some(Got(x, |b|))
    ensures GoesOnTo(sch, key, value, TagBytes(n, WireOf(HalfKind(key, value, n))) + (b + rest), seen,
                     rest, With(seen, n, x))
  {
    TagRead(n, WireOf(HalfKind(key, value, n)), b + rest);
    assert (b + rest)[|b|..] == rest;
  }

  // Reading a map entry goes on from b to rest.
  ghost predicate GoesOnTo(sch: Schema, key: Kind, value: Kind, b: seq<byte>, seen: Seen, rest: seq<byte>,
                           seen': Seen) {
    ReadPair(sch, key, value, b, seen) == ReadPair(sch, key, value, rest, seen')
  }

  lemma HalfElided(sch: Schema, key: Kind, value: Kind, n: nat, v: Lua, rest: seq<byte>, seen: Seen)
    requires 1 <= n <= 2 && Fits(sch, HalfKind(key, value, n), v)
    requires v.Leaf? && IsZero(HalfKind(key, value, n), v.scalar)
    ensures Half(sch, HalfKind(key, value, n), v, None)
    ensures GoesOnTo(sch, key, value, TagField(sch, n, HalfKind(key, value, n), v, true) + rest, seen, rest, seen)
  {
    ZeroIsDefault(HalfKind(key, value, n), v.scalar);
    assert [] + rest == rest;
  }

  lemma {:induction false} HalfRead(sch: Schema, key: Kind, value: Kind, n: nat, v: Lua, rest: seq<byte>, seen: Seen)
    returns (x: Option<Value>)
    requires GoodSchema(sch) && 1 <= n <= 2 && Fits(sch, HalfKind(key, value, n), v)
    ensures Half(sch, HalfKind(key, value, n), v, x)
    ensures GoesOnTo(sch, key, value, TagField(sch, n, HalfKind(key, value, n), v, true) + rest, seen,
                     rest, if x == None then seen else With(seen, n, x.value))
    decreases v, 1
  {
    var k := HalfKind(key, value, n);
    if v.Leaf? && IsZero(k, v.scalar) {
      HalfElided(sch, key, value, n, v, rest, seen);
      x := None;
    } else {
      var b := FieldBytes(sch, k, v);
      ValueRoundTrip(sch, k, v, rest);
      HalfPresent(sch, key, value, n, b, Meaning(sch, k, v), rest, seen);
      Assoc3(TagBytes(n, WireOf(k)), b, rest);
      x := Some(Meaning(sch, k, v));
    }
  }

  lemma {:induction false} PairRoundTrip(sch: Schema, f: Field, p: Pair, m: map<Scalar, Value>) returns (seen: Seen)
    requires GoodSchema(sch) && f.shape.MapOf? && FitsPair(sch, f, p)
    ensures ReadPair(sch, f.shape.key, f.shape.value, PairBytes(sch, f, p), Seen(None, None)) == Some(seen)
    ensures p.key.Leaf? && AddPair(m, f.shape.key, f.shape.value, seen) == m[p.key.scalar := MeaningOfPair(sch, f, p)]
    decreases p, 2
  {
    var k, v := f.shape.key, f.shape.value;
    assert Fits(sch, k, p.key);
    var second := TagField(sch, 2, v, p.value, true);
    var x := HalfRead(sch, k, v, 1, p.key, second, Seen(None, None));
    var y := HalfRead(sch, k, v, 2, p.value, [], Seen(x, None));
    seen := Seen(x, y);
    HalvesMakeThePair(sch, f, p, x, y, m);
    assert second + [] == second;
  }

  lemma HalvesMakeThePair(sch: Schema, f: Field, p: Pair, x: Option<Value>, y: Option<Value>, m: map<Scalar, Value>)
    requires f.shape.MapOf? && FitsPair(sch, f, p)
    requires Half(sch, f.shape.key, p.key, x) && Half(sch, f.shape.value, p.value, y)
    ensures p.key.Leaf?
    ensures AddPair(m, f.shape.key, f.shape.value, Seen(x, y)) == m[p.key.scalar := MeaningOfPair(sch, f, p)]
  {
    LeafMeaning(sch, f.shape.key, p.key);
  }

  lemma LeafMeaning(sch: Schema, k: Kind, v: Lua)
    requires Fits(sch, k, v) && !k.Msg?
    ensures v.Leaf? && Meaning(sch, k, v) == Plain(v.scalar)
  {
  }

  lemma OnePair(sch: Schema, t: MessageType, f: Field, b: seq<byte>, seen: Seen, rest: seq<byte>, m: map<string, Value>)
    requires IsFieldOf(t, f) && f.shape.MapOf? && |b| < SIZE_LIMIT
    requires ReadPair(sch, f.shape.key, f.shape.value, b, Seen(None, None)) == Some(seen)
    ensures DecodeMessage(sch, t, TagBytes(f.number, 2) + Delimited(b) + rest, m) ==
            DecodeMessage(sch, t, rest,
              m[f.name := Assoc(AddPair(AssocAt(m, f.name), f.shape.key, f.shape.value, seen))])
  {
    DelimitedRoundTrip(b, rest);
    FieldStep(sch, t, f, 2, Delimited(b), rest, m,
              m[f.name := Assoc(AddPair(AssocAt(m, f.name), f.shape.key, f.shape.value, seen))]);
  }

  lemma {:induction false} PairsRoundTrip(sch: Schema, t: MessageType, f: Field, pairs: seq<Pair>, rest: seq<byte>,
                                          m: map<string, Value>)
    requires GoodSchema(sch) && IsFieldOf(t, f) && f.shape.MapOf?
    requires forall i | 0 <= i < |pairs| :: FitsPair(sch, f, pairs[i])
    ensures DecodeMessage(sch, t, EncodePairs(sch, f, pairs) + rest, m) ==
            DecodeMessage(sch, t, rest,
              if pairs == [] then m
              else m[f.name := Assoc(MeaningOfPairs(sch, f, pairs, AssocAt(m, f.name)))])
    decreases pairs, 3
  {
    if pairs == [] {
      assert [] + rest == rest;
    } else {
      FirstPair(sch, f, pairs, AssocAt(m, f.name));
      var b, more := PairBytes(sch, f, pairs[0]), EncodePairs(sch, f, pairs[1..]);
      var start := AssocAt(m, f.name);
      var seen := PairRoundTrip(sch, f, pairs[0], start);
      var next := start[pairs[0].key.scalar := MeaningOfPair(sch, f, pairs[0])];
      Assoc3(TagBytes(f.number, 2) + Delimited(b), more, rest);
      OnePair(sch, t, f, b, seen, more + rest, m);
      PairsRoundTrip(sch, t, f, pairs[1..], rest, m[f.name := Assoc(next)]);
      Overwritten(m, f.name, Assoc(next), Assoc(MeaningOfPairs(sch, f, pairs, start)));
    }
  }

  // The first pair goes into the map, and then the others.
  lemma FirstPair(sch: Schema, f: Field, pairs: seq<Pair>, start: map<Scalar, Value>)
    requires pairs != [] && f.shape.MapOf? && forall i | 0 <= i < |pairs| :: FitsPair(sch, f, pairs[i])
    ensures FitsPair(sch, f, pairs[0]) && pairs[0].key.Leaf?
    ensures forall i | 0 <= i < |pairs[1..]| :: FitsPair(sch, f, pairs[1..][i])
    ensures MeaningOfPairs(sch, f, pairs, start) ==
            MeaningOfPairs(sch, f, pairs[1..], start[pairs[0].key.scalar := MeaningOfPair(sch, f, pairs[0])])
  {
    assert FitsPair(sch, f, pairs[0]);
    assert forall i | 0 <= i < |pairs| - 1 :: pairs[1..][i] == pairs[i + 1];
    assert Fits(sch, f.shape.key, pairs[0].key);
  }

  lemma Overwritten(m: map<string, Value>, name: string, v: Value, w: Value)
    ensures m[name := v][name := w] == m[name := w]
  {
  }

  // ---- Main results ----

  // Each name holds what its own entry puts there.
  lemma {:induction false} MeaningAt(sch: Schema, t: MessageType, entries: seq<Entry>, m: map<string, Value>, n: string)
    requires FitsMessage(sch, t, entries)
    ensures forall i | 0 <= i < |entries| && entries[i].name == n ::
              FitsEntry(sch, t, entries[i]) &&
              SameAt(MeaningOf(sch, t, entries, m), Put(sch, t, entries[i], m), n)
    ensures (forall i | 0 <= i < |entries| :: entries[i].name != n) ==> SameAt(MeaningOf(sch, t, entries, m), m, n)
    decreases entries
  {
    if entries != [] {
      assert FitsEntry(sch, t, entries[0]);
      RestFits(sch, t, entries);
      assert forall i | 0 <= i < |entries| - 1 :: entries[1..][i] == entries[i + 1];
      var m' := Put(sch, t, entries[0], m);
      MeaningAt(sch, t, entries[1..], m', n);
      forall i | 0 <= i < |entries| && entries[i].name == n
        ensures FitsEntry(sch, t, entries[i]) && SameAt(MeaningOf(sch, t, entries, m), Put(sch, t, entries[i], m), n)
      {
        if i > 0 {
          assert entries[1..][i - 1] == entries[i];
        }
      }
    }
  }

  ghost predicate SameAt(a: map<string, Value>, b: map<string, Value>, n: string) {
    (n in a <==> n in b) && (n in a ==> a[n] == b[n])
  }

  // The order in which the table is traversed does not matter.
  lemma OrderDoesNotMatter(sch: Schema, t: MessageType, es: seq<Entry>, es': seq<Entry>, m: map<string, Value>)
    requires FitsMessage(sch, t, es) && FitsMessage(sch, t, es') && multiset(es) == multiset(es')
    ensures MeaningOf(sch, t, es, m) == MeaningOf(sch, t, es', m)
  {
    var a, b := MeaningOf(sch, t, es, m), MeaningOf(sch, t, es', m);
    forall n ensures SameAt(a, b, n) {
      MeaningAt(sch, t, es, m, n);
      MeaningAt(sch, t, es', m, n);
      if i :| 0 <= i < |es| && es[i].name == n {
        assert es[i] in multiset(es');
        var j :| 0 <= j < |es'| && es'[j] == es[i];
      } else {
        forall j | 0 <= j < |es'| ensures es'[j].name != n {
          assert es'[j] in multiset(es);
        }
      }
    }
    EqualMaps(a, b);
  }

  lemma EqualMaps(a: map<string, Value>, b: map<string, Value>)
    requires forall n :: SameAt(a, b, n)
    ensures a == b
  {
    forall n ensures n in a <==> n in b {
      assert SameAt(a, b, n);
    }
    forall n | n in a ensures a[n] == b[n] {
      assert SameAt(a, b, n);
    }
  }

  // A name that is no field's, or no entry's, keeps its default.
  lemma NotSet(sch: Schema, t: MessageType, entries: seq<Entry>, n: string)
    requires FitsMessage(sch, t, entries)
    requires n !in t.byName || forall i | 0 <= i < |entries| :: entries[i].name != n
    ensures SameAt(MeaningOf(sch, t, entries, Defaults(t)), Defaults(t), n)
  {
    MeaningAt(sch, t, entries, Defaults(t), n);
    if i :| 0 <= i < |entries| && entries[i].name == n {
      assert Put(sch, t, entries[i], Defaults(t)) == Defaults(t);
    }
  }

  // Decoding an encoded table gives, for every field of the schema that was set, its value, and for
  // every other name the default, whatever the order of the fields. (A field set to an empty list
  // or map is absent in messages without defaults.)
  lemma DecodeEncoded(sch: Schema, t: MessageType, entries: seq<Entry>) returns (m: map<string, Value>)
    requires GoodSchema(sch) && GoodType(t) && FitsMessage(sch, t, entries)
    ensures DecodeMessage(sch, t, EncodeMessage(sch, t, entries), Defaults(t)) == Some(m)
    ensures forall i | 0 <= i < |entries| && entries[i].name in t.byName ::
              && FitsEntry(sch, t, entries[i])
              && (entries[i].name in m ==> m[entries[i].name] == FieldMeaning(sch, t, entries[i]))
              && (entries[i].name !in m ==> NotWritten(t, entries[i]) && entries[i].name !in Defaults(t))
    ensures forall n | n !in t.byName || forall i | 0 <= i < |entries| :: entries[i].name != n ::
              SameAt(m, Defaults(t), n)
  {
    m := MeaningOf(sch, t, entries, Defaults(t));
    MessageRoundTrip(sch, t, entries, Defaults(t));
    forall i | 0 <= i < |entries| && entries[i].name in t.byName
      ensures FitsEntry(sch, t, entries[i])
      ensures entries[i].name in m ==> m[entries[i].name] == FieldMeaning(sch, t, entries[i])
      ensures entries[i].name !in m ==> NotWritten(t, entries[i]) && entries[i].name !in Defaults(t)
    {
      MeaningAt(sch, t, entries, Defaults(t), entries[i].name);
    }
    forall n | n !in t.byName || forall i | 0 <= i < |entries| :: entries[i].name != n
      ensures SameAt(m, Defaults(t), n)
    {
      NotSet(sch, t, entries, n);
    }
  }
}
