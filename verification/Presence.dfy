/** Which fields leave bytes, and what the decoder gives for those that do not: stated by the kinds and shapes
    of the fields, without the functions that encoding and decoding use.
 */
module Presence {
  import opened Common
  import opened Words
  import opened Varint
  import opened Wire
  import opened Message

  // ---- What absent fields are ----

  predicate IsNumber(k: Kind) {
    k in {Kind.Int32, UInt32, SInt32, Kind.Int64, UInt64, SInt64, Fixed32, SFixed32, Fixed64, SFixed64, Enum}
  }

  // The value without content of a field of this kind and shape; a single message has none.
  predicate IsEmptyValue(k: Kind, shape: Shape, v: Value) {
    if shape == Repeated || shape == Packed then v == Arr([])
    else if shape.MapOf? then v == Assoc(map[])
    else if k == Bool then v == Plain(Boolean(false))
    else if k == String || k == Bytes then v == Plain(Text([]))
    else IsNumber(k) && v == Plain(Int(0))
  }

  // The decoded table holds a value for a field that was not set.
  predicate IsFilledIn(t: MessageType, f: Field) {
    t.proto3 && !f.inOneof && (f.shape == Single ==> !f.kind.Msg?)
  }

  predicate IsAsIfAbsent(t: MessageType, f: Field, m: map<string, Value>) {
    if IsFilledIn(t, f) then f.name in m && IsEmptyValue(f.kind, f.shape, m[f.name]) else f.name !in m
  }

  lemma DefaultIsEmpty(t: MessageType, f: Field)
    requires IsFieldOf(t, f)
    ensures IsAsIfAbsent(t, f, Defaults(t))
  {
  }

  /** A field that was not set comes back empty, enums as 0, if the type is proto3, the field is in no oneof and
      is not a single message; otherwise it is not in the table at all. */
  lemma AbsentField(sch: Schema, t: MessageType, entries: seq<Entry>, f: Field) returns (m: map<string, Value>)
    requires GoodSchema(sch) && GoodType(t) && FitsMessage(sch, t, entries) && IsFieldOf(t, f)
    requires forall i | 0 <= i < |entries| :: entries[i].name != f.name
    ensures DecodeMessage(sch, t, EncodeMessage(sch, t, entries), Defaults(t)) == Some(m) && IsAsIfAbsent(t, f, m)
  {
    m := MeaningOf(sch, t, entries, Defaults(t));
    MessageRoundTrip(sch, t, entries, Defaults(t));
    NotSet(sch, t, entries, f.name);
    DefaultIsEmpty(t, f);
  }

  /** The same inside a message that is a field's value. */
  lemma AbsentInNested(sch: Schema, n: string, entries: seq<Entry>, f: Field, rest: seq<byte>)
    returns (m: map<string, Value>)
    requires GoodSchema(sch) && n in sch && FitsMessage(sch, sch[n], entries) && IsFieldOf(sch[n], f)
    requires |EncodeMessage(sch, sch[n], entries)| < SIZE_LIMIT
    requires forall i | 0 <= i < |entries| :: entries[i].name != f.name
    ensures var b := Delimited(EncodeMessage(sch, sch[n], entries));
            ReadValue(sch, Msg(n), b + rest) == Some(Got(Rec(m), |b|)) && IsAsIfAbsent(sch[n], f, m)
  {
    m := AbsentField(sch, sch[n], entries, f);
    DelimitedRoundTrip(EncodeMessage(sch, sch[n], entries), rest);
  }

  // ---- Which fields leave bytes ----

  // A scalar that says no more than its absence. An enum does, even if it is 0.
  predicate IsBlank(k: Kind, v: Lua) {
    k != Enum && (v == Leaf(Int(0)) || v == Leaf(Boolean(false)) || v == Leaf(Text([])))
  }

  predicate LeavesNoBytes(t: MessageType, f: Field, v: Lua) {
    match f.shape
    case Single => t.proto3 && !f.inOneof && IsBlank(f.kind, v)
    case Repeated => v == List([])
    case Packed => false
    case MapOf(_, _) => v == Dict([])
  }

  /** An entry leaves no bytes exactly if it is no field of the type, an empty list or map, or a blank scalar of
      a proto3 type outside of oneofs. A packed list leaves bytes even if it is empty. */
  lemma LeftOutIffBlank(sch: Schema, t: MessageType, e: Entry)
    requires FitsEntry(sch, t, e)
    ensures EncodeEntry(sch, t, e) == [] <==> e.name !in t.byName || LeavesNoBytes(t, t.byName[e.name], e.value)
  {
    if e.name in t.byName {
      var f := t.byName[e.name];
      match f.shape
      case Single =>
      case Packed =>
      case Repeated =>
        if e.value.items != [] {
          assert EncodeItems(sch, f, e.value.items) ==
                 TagField(sch, f.number, f.kind, e.value.items[0], false) + EncodeItems(sch, f, e.value.items[1..]);
        }
      case MapOf(_, _) =>
        if e.value.pairs != [] {
          assert |EncodePairs(sch, f, e.value.pairs)| >= |TagBytes(f.number, 2)| > 0;
        }
    }
  }

  /** A half of a map entry leaves no bytes exactly if it is blank, and what was left out is not seen. */
  lemma HalvesLeftOut(sch: Schema, f: Field, p: Pair)
    requires GoodSchema(sch) && f.shape.MapOf? && FitsPair(sch, f, p)
    ensures ReadPair(sch, f.shape.key, f.shape.value, PairBytes(sch, f, p), Seen(None, None)) ==
            Some(Seen(if IsBlank(f.shape.key, p.key) then None else Some(Meaning(sch, f.shape.key, p.key)),
                      if IsBlank(f.shape.value, p.value) then None else Some(Meaning(sch, f.shape.value, p.value))))
  {
    var k, v := f.shape.key, f.shape.value;
    var second := TagField(sch, 2, v, p.value, true);
    var x := if IsBlank(k, p.key) then None else Some(Meaning(sch, k, p.key));
    HalfSeen(sch, k, v, 1, p.key, second, Seen(None, None));
    HalfSeen(sch, k, v, 2, p.value, [], Seen(x, None));
    assert second + [] == second;
  }

  lemma HalfSeen(sch: Schema, key: Kind, value: Kind, n: nat, v: Lua, rest: seq<byte>, seen: Seen)
    requires GoodSchema(sch) && 1 <= n <= 2 && Fits(sch, HalfKind(key, value, n), v)
    ensures GoesOnTo(sch, key, value, TagField(sch, n, HalfKind(key, value, n), v, true) + rest, seen, rest,
              if IsBlank(HalfKind(key, value, n), v) then seen
              else With(seen, n, Meaning(sch, HalfKind(key, value, n), v)))
  {
    var k := HalfKind(key, value, n);
    if IsBlank(k, v) {
      assert [] + rest == rest;
    } else {
      ValueRoundTrip(sch, k, v, rest);
      HalfPresent(sch, key, value, n, FieldBytes(sch, k, v), Meaning(sch, k, v), rest, seen);
      Assoc3(TagBytes(n, WireOf(k)), FieldBytes(sch, k, v), rest);
    }
  }

  // ---- Map entries with a half missing ----

  // Half of an entry: as it was seen, or without content.
  ghost predicate IsHalfOf(k: Kind, seen: Option<Value>, x: Value) {
    if seen.Some? then seen.value == x else IsEmptyValue(k, Single, x)
  }

  /** Whatever an entry's record holds, the pair of what was seen last of its halves goes into the map, a missing
      scalar being empty; only an entry without its message is dropped. */
  lemma EntryGoesIn(sch: Schema, t: MessageType, f: Field, b: seq<byte>, seen: Seen, rest: seq<byte>,
                    m: map<string, Value>) returns (k: Scalar, v: Value)
    requires IsFieldOf(t, f) && f.shape.MapOf? && |b| < SIZE_LIMIT
    requires ReadPair(sch, f.shape.key, f.shape.value, b, Seen(None, None)) == Some(seen)
    requires seen.key.Some? ==> seen.key.value.Plain?
    ensures var old_ := if f.name in m && m[f.name].Assoc? then m[f.name].assoc else map[];
            var dropped := seen.value == None && f.shape.value.Msg?;
            && (!dropped ==> IsHalfOf(f.shape.key, seen.key, Plain(k)) && IsHalfOf(f.shape.value, seen.value, v))
            && DecodeMessage(sch, t, TagBytes(f.number, 2) + Delimited(b) + rest, m) ==
               DecodeMessage(sch, t, rest, m[f.name := Assoc(if dropped then old_ else old_[k := v])])
  {
    OnePair(sch, t, f, b, seen, rest, m);
    k, v := PairGoesIn(AssocAt(m, f.name), f.shape.key, f.shape.value, seen);
  }

  lemma PairGoesIn(a: map<Scalar, Value>, key: Kind, value: Kind, seen: Seen) returns (k: Scalar, v: Value)
    requires !key.Msg? && (seen.key.Some? ==> seen.key.value.Plain?)
    ensures seen.value == None && value.Msg? ==> AddPair(a, key, value, seen) == a
    ensures !(seen.value == None && value.Msg?) ==>
              IsHalfOf(key, seen.key, Plain(k)) && IsHalfOf(value, seen.value, v) &&
              AddPair(a, key, value, seen) == a[k := v]
  {
    var x := if seen.key.Some? then seen.key else Default(key, Single);
    var y := if seen.value.Some? then seen.value else Default(value, Single);
    k := x.value.scalar;
    v := if y.Some? then y.value else Plain(k);
  }

  /** Of a half that is there more than once, the last one counts. */
  lemma LastHalfCounts(sch: Schema, key: Kind, value: Kind, n: nat, v: Lua, v': Lua, rest: seq<byte>, seen: Seen)
    requires GoodSchema(sch) && 1 <= n <= 2
    requires Fits(sch, HalfKind(key, value, n), v) && Fits(sch, HalfKind(key, value, n), v')
    ensures var k := HalfKind(key, value, n);
            var x := Some(Meaning(sch, k, v'));
            GoesOnTo(sch, key, value,
              TagField(sch, n, k, v, false) + (TagField(sch, n, k, v', false) + rest), seen, rest,
              if n == 1 then Seen(x, seen.value) else Seen(seen.key, x))
  {
    var k := HalfKind(key, value, n);
    HalfIsRead(sch, key, value, n, v, TagField(sch, n, k, v', false) + rest, seen);
    HalfIsRead(sch, key, value, n, v', rest, With(seen, n, Meaning(sch, k, v)));
  }

  lemma HalfIsRead(sch: Schema, key: Kind, value: Kind, n: nat, v: Lua, rest: seq<byte>, seen: Seen)
    requires GoodSchema(sch) && 1 <= n <= 2 && Fits(sch, HalfKind(key, value, n), v)
    ensures var k := HalfKind(key, value, n);
            GoesOnTo(sch, key, value, TagField(sch, n, k, v, false) + rest, seen, rest,
                     With(seen, n, Meaning(sch, k, v)))
  {
    var k := HalfKind(key, value, n);
    ValueRoundTrip(sch, k, v, rest);
    HalfPresent(sch, key, value, n, FieldBytes(sch, k, v), Meaning(sch, k, v), rest, seen);
    Assoc3(TagBytes(n, WireOf(k)), FieldBytes(sch, k, v), rest);
  }
}
