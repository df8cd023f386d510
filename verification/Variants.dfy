/** Bytes that this encoder would not have written, and what the decoder makes of them: the other form of a
    repeated field, fields given twice, fields it does not know, tags with another wire type, values that are
    cut off.
 */
module Variants {
  import opened Common
  import opened Words
  import opened Varint
  import opened Wire
  import opened Message

  // ---- Packed or not ----

  predicate IsScalarList(f: Field) {
    (f.shape == Repeated || f.shape == Packed) && WireOf(f.kind) != 2
  }

  /** A list of scalars may come packed, whether the field is declared packed or not ... */
  lemma PackedIsTaken(sch: Schema, t: MessageType, f: Field, items: seq<Lua>, rest: seq<byte>, m: map<string, Value>)
    requires GoodSchema(sch) && IsFieldOf(t, f) && IsScalarList(f) && FitsItems(sch, f.kind, items)
    requires |EncodePacked(sch, f.kind, items)| < SIZE_LIMIT
    ensures DecodeMessage(sch, t, TagBytes(f.number, 2) + Delimited(EncodePacked(sch, f.kind, items)) + rest, m) ==
            DecodeMessage(sch, t, rest, m[f.name := Arr(ArrayAt(m, f.name) + MeaningOfItems(sch, f.kind, items))])
  {
    var b := EncodePacked(sch, f.kind, items);
    PackedItems(sch, f.kind, items);
    DelimitedRoundTrip(b, rest);
    TagRead(f.number, 2, []);
    FieldStep(sch, t, f, 2, Delimited(b), rest, m,
              m[f.name := Arr(ArrayAt(m, f.name) + MeaningOfItems(sch, f.kind, items))]);
  }

  /** ... and item by item, whether it is or not. */
  lemma {:induction false} UnpackedIsTaken(sch: Schema, t: MessageType, f: Field, items: seq<Lua>, rest: seq<byte>,
                                           m: map<string, Value>)
    requires GoodSchema(sch) && IsFieldOf(t, f) && IsScalarList(f) && FitsItems(sch, f.kind, items) && items != []
    ensures DecodeMessage(sch, t, EncodeItems(sch, f, items) + rest, m) ==
            DecodeMessage(sch, t, rest, m[f.name := Arr(ArrayAt(m, f.name) + MeaningOfItems(sch, f.kind, items))])
    decreases items
  {
    assert Fits(sch, f.kind, items[0]);
    RestItemsFit(sch, f.kind, items);
    var v, vs := Meaning(sch, f.kind, items[0]), MeaningOfItems(sch, f.kind, items[1..]);
    var more := EncodeItems(sch, f, items[1..]);
    Assoc3(TagField(sch, f.number, f.kind, items[0], false), more, rest);
    OneItem(sch, t, f, items[0], more + rest, m);
    if items[1..] == [] {
      assert more + rest == rest && [v] + vs == [v];
    } else {
      UnpackedIsTaken(sch, t, f, items[1..], rest, m[f.name := Arr(ArrayAt(m, f.name) + [v])]);
      Appended(m, f.name, v, vs);
    }
  }

  lemma OneItem(sch: Schema, t: MessageType, f: Field, item: Lua, rest: seq<byte>, m: map<string, Value>)
    requires GoodSchema(sch) && IsFieldOf(t, f) && IsScalarList(f) && Fits(sch, f.kind, item)
    ensures DecodeMessage(sch, t, TagField(sch, f.number, f.kind, item, false) + rest, m) ==
            DecodeMessage(sch, t, rest, m[f.name := Arr(ArrayAt(m, f.name) + [Meaning(sch, f.kind, item)])])
  {
    ValueRoundTrip(sch, f.kind, item, rest);
    TagRead(f.number, WireOf(f.kind), []);
    FieldStep(sch, t, f, WireOf(f.kind), FieldBytes(sch, f.kind, item), rest, m,
              m[f.name := Arr(ArrayAt(m, f.name) + [Meaning(sch, f.kind, item)])]);
  }

  // ---- Fields given twice ----

  /** Of a single field that is there more than once, the last value counts. */
  lemma LastValueCounts(sch: Schema, t: MessageType, f: Field, v: Lua, v': Lua, rest: seq<byte>, m: map<string, Value>)
    requires GoodSchema(sch) && IsFieldOf(t, f) && f.shape == Single && Fits(sch, f.kind, v) && Fits(sch, f.kind, v')
    ensures DecodeMessage(sch, t, TagField(sch, f.number, f.kind, v, false) +
                                  (TagField(sch, f.number, f.kind, v', false) + rest), m) ==
            DecodeMessage(sch, t, rest, m[f.name := Meaning(sch, f.kind, v')])
  {
    OneValue(sch, t, f, v, TagField(sch, f.number, f.kind, v', false) + rest, m);
    OneValue(sch, t, f, v', rest, m[f.name := Meaning(sch, f.kind, v)]);
    Overwritten(m, f.name, Meaning(sch, f.kind, v), Meaning(sch, f.kind, v'));
  }

  lemma OneValue(sch: Schema, t: MessageType, f: Field, v: Lua, rest: seq<byte>, m: map<string, Value>)
    requires GoodSchema(sch) && IsFieldOf(t, f) && f.shape == Single && Fits(sch, f.kind, v)
    ensures DecodeMessage(sch, t, TagField(sch, f.number, f.kind, v, false) + rest, m) ==
            DecodeMessage(sch, t, rest, m[f.name := Meaning(sch, f.kind, v)])
  {
    ValueRoundTrip(sch, f.kind, v, rest);
    TagRead(f.number, WireOf(f.kind), []);
    FieldStep(sch, t, f, WireOf(f.kind), FieldBytes(sch, f.kind, v), rest, m,
              m[f.name := Meaning(sch, f.kind, v)]);
  }

  // ---- Other tags ----

  /** A field that the type does not have, with a well-formed value of whatever wire type, changes nothing. */
  lemma UnknownIsPassedOver(sch: Schema, t: MessageType, number: nat, wire: nat, v: WireValue, rest: seq<byte>,
                            m: map<string, Value>)
    requires 0 < number < 0x2000_0000 && wire < 8 && number !in t.byNumber && WellFormed(v, Tag(number, wire))
    ensures DecodeMessage(sch, t, TagBytes(number, wire) + Flat(v) + rest, m) == DecodeMessage(sch, t, rest, m)
  {
    TagRead(number, wire, Flat(v) + rest);
    SkipIsComplete(v, Tag(number, wire), rest);
    Assoc3(TagBytes(number, wire), Flat(v), rest);
    assert (Flat(v) + rest)[|Flat(v)|..] == rest;
  }

  // The wire types with which a field's values may come.
  predicate TakesWireType(f: Field, wire: nat) {
    match f.shape
    case Single => wire == WireOf(f.kind)
    case MapOf(_, _) => true
    case _ => wire == WireOf(f.kind) || wire == 2
  }

  /** A known field with a wire type that it does not take makes decoding fail, whatever follows. */
  lemma OtherWireTypeFails(sch: Schema, t: MessageType, f: Field, wire: nat, b: seq<byte>, m: map<string, Value>)
    requires GoodSchema(sch) && IsFieldOf(t, f) && wire < 8 && !TakesWireType(f, wire)
    ensures DecodeMessage(sch, t, TagBytes(f.number, wire) + b, m) == None
  {
    TagRead(f.number, wire, b);
    assert DecodeField(sch, f, Tag(f.number, wire), b, m) == None;
  }

  /** The wire type of a map field is not looked at: its record is read behind any tag with its number. */
  lemma MapTakesAnyWireType(sch: Schema, t: MessageType, f: Field, wire: nat, b: seq<byte>, m: map<string, Value>)
    requires GoodSchema(sch) && IsFieldOf(t, f) && f.shape.MapOf? && wire < 8
    ensures DecodeMessage(sch, t, TagBytes(f.number, wire) + b, m) ==
            DecodeMessage(sch, t, TagBytes(f.number, 2) + b, m)
  {
    TagRead(f.number, wire, b);
    TagRead(f.number, 2, b);
  }

  // ---- Values that are cut off ----

  lemma CutVarint(n: nat, p: seq<byte>)
    requires n < 0x1_0000_0000_0000_0000 && p < Encode(n)
    ensures Decode(p, 10) == None
  {
    TenGroups();
    DecodeEncode(n, [], 10);
    assert Encode(n) + [] == Encode(n);
    if Decode(p, 10).Some? {
      DecodeIsLocal(p, 10);
      var k := Decode(p, 10).value.size;
      assert p[..k] == Encode(n)[..k];
      DecodeIgnoresRest(p, Encode(n), 10);
    }
  }

  lemma CutRecord(b: seq<byte>, p: seq<byte>)
    requires |b| < SIZE_LIMIT && p < Delimited(b)
    ensures ReadDelimited(p) == None
  {
    var length := Encode(|b|);
    if |p| < |length| {
      assert p < length;
      CutVarint(|b|, p);
    } else {
      var more := p[|length|..];
      assert p == length + more;
      TenGroups();
      DecodeEncode(|b|, more, 10);
    }
  }

  lemma CutScalar(k: Kind, s: Scalar, p: seq<byte>)
    requires InRange(k, s) && p < ScalarBytes(k, s)
    ensures ReadScalar(k, p) == None
  {
    if WireOf(k) == 0 {
      WordRoundTrip(k, s);
      assert ScalarBytes(k, s) == Encode(ToWord(k, s));
      CutVarint(ToWord(k, s), p);
    } else if WireOf(k) == 2 {
      PrefixedIsDelimited(s.bytes);
      CutRecord(s.bytes, p);
    } else {
      Pow256Values();
      FixedRoundTrip(if WireOf(k) == 5 then U32(s.i) else U64(s.i), if WireOf(k) == 5 then 4 else 8);
    }
  }

  /** A message that ends inside the value of a known field is refused. */
  lemma CutValueFails(sch: Schema, t: MessageType, f: Field, v: Lua, p: seq<byte>, m: map<string, Value>)
    requires GoodSchema(sch) && IsFieldOf(t, f) && f.shape == Single && Fits(sch, f.kind, v)
    requires p < FieldBytes(sch, f.kind, v)
    ensures DecodeMessage(sch, t, TagBytes(f.number, WireOf(f.kind)) + p, m) == None
  {
    TagRead(f.number, WireOf(f.kind), p);
    CutValue(sch, f.kind, v, p);
    assert DecodeField(sch, f, Tag(f.number, WireOf(f.kind)), p, m) == None;
  }

  lemma CutValue(sch: Schema, k: Kind, v: Lua, p: seq<byte>)
    requires Fits(sch, k, v) && p < FieldBytes(sch, k, v)
    ensures ReadValue(sch, k, p) == None
  {
    match k
    case Msg(n) => CutRecord(EncodeMessage(sch, sch[n], v.entries), p);
    case _ => CutScalar(k, v.scalar, p);
  }
}
