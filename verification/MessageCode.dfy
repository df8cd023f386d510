/** The code that encodes and decodes messages: encoding appends to and truncates a buffer, decoding
    moves a cursor. Each method does what its function in Message says.
 */
module MessageCode {
  import opened Common
  import opened Words
  import opened Varint
  import opened Wire
  import opened Buffer
  import opened Message

  // ---- Encoding ----

  // lpb_addtype and lpbE_enum, of any number: `plen` is the number of bytes if the value may be left
  // out, else 0.
  method AddScalar(b: ByteBuffer, k: Kind, s: Scalar) returns (plen: nat)
    requires b.Valid()
    modifies b, b.buff
    ensures b.Valid() && (b.buff == old(b.buff) || fresh(b.buff))
    ensures b.Contents() == old(b.Contents()) + ScalarBytes(k, s)
    ensures InRange(k, s) ==> plen == if IsZero(k, s) then |ScalarBytes(k, s)| else 0
  {
    match s {
      case Boolean(v) =>
        plen := b.AddVarint32(if v then 1 else 0);
        if v { plen := 0; }
      case Text(t) =>
        plen := b.AddBytes(t);
        if t != [] { plen := 0; }
      case Int(i) =>
        plen := AddInteger(b, k, i);
        if i != 0 || k == Enum { plen := 0; }
    }
  }

  method AddInteger(b: ByteBuffer, k: Kind, i: int) returns (len: nat)
    requires b.Valid()
    modifies b, b.buff
    ensures b.Valid() && (b.buff == old(b.buff) || fresh(b.buff))
    ensures b.Contents() == old(b.Contents()) + ScalarBytes(k, Int(i)) && len == |ScalarBytes(k, Int(i))|
  {
    if k == Int32 {
      len := b.AddVarint64(ExpandSig(U32(i)));
    } else if k == UInt32 {
      len := b.AddVarint32(U32(i));
    } else if k == SInt32 {
      len := b.AddVarint32(EncodeSint32(Signed32(U32(i))));
    } else if k == SInt64 {
      len := b.AddVarint64(EncodeSint64(Signed64(U64(i))));
    } else if k == Fixed32 || k == SFixed32 {
      len := b.AddFixed(U32(i), 4);
    } else if k == Fixed64 || k == SFixed64 {
      len := b.AddFixed(U64(i), 8);
    } else {
      len := b.AddVarint64(U64(i));
    }
  }

  // lpbE_field
  method AddField(b: ByteBuffer, sch: Schema, k: Kind, v: Lua) returns (plen: nat)
    requires b.Valid() && GoodSchema(sch) && Fits(sch, k, v)
    modifies b, b.buff
    ensures b.Valid() && (b.buff == old(b.buff) || fresh(b.buff))
    ensures b.Contents() == old(b.Contents()) + FieldBytes(sch, k, v)
    ensures plen == if v.Leaf? && IsZero(k, v.scalar) then |FieldBytes(sch, k, v)| else 0
    decreases v, 0
  {
    match k {
      case Msg(n) =>
        var len := b.size;
        AddMessage(b, sch, sch[n], v.entries);
        Enclose(b, len, old(b.Contents()), EncodeMessage(sch, sch[n], v.entries));
        plen := 0;
      case _ =>
        plen := AddScalar(b, k, v.scalar);
    }
  }

  // lpb_addlength: what was added since the buffer had len bytes becomes a record.
  method Enclose(b: ByteBuffer, len: nat, ghost before: seq<byte>, ghost added: seq<byte>)
    requires b.Valid() && b.Contents() == before + added && len == |before| && |added| < SIZE_LIMIT
    modifies b, b.buff
    ensures b.Valid() && (b.buff == old(b.buff) || fresh(b.buff))
    ensures b.Contents() == before + Delimited(added)
  {
    var ml := b.AddLength(len);
    assert (before + added)[..len] == before && (before + added)[len..] == added;
  }

  // lpbE_tagfield: a zero is taken back, and with it its tag.
  method AddTagField(b: ByteBuffer, sch: Schema, number: nat, k: Kind, v: Lua, ignorezero: bool)
    requires b.Valid() && GoodSchema(sch) && Fits(sch, k, v) && 0 < number < 0x2000_0000
    modifies b, b.buff
    ensures b.Valid() && (b.buff == old(b.buff) || fresh(b.buff))
    ensures b.Contents() == old(b.Contents()) + TagField(sch, number, k, v, ignorezero)
    decreases v, 1
  {
    ghost var was, tag, field := b.Contents(), TagBytes(number, WireOf(k)), FieldBytes(sch, k, v);
    var hlen := b.AddVarint32(Tag(number, WireOf(k)));
    var ignored := AddField(b, sch, k, v);
    Regroup(was, tag, field);
    if ignored != 0 && ignorezero {
      TakenBack(was, tag + field);
      b.Drop(ignored + hlen);
    }
  }

  lemma TakenBack(a: seq<byte>, b: seq<byte>)
    ensures (a + b)[..|a + b| - |b|] == a == a + []
  {
  }

  // lpbE_map
  method AddPairs(b: ByteBuffer, sch: Schema, f: Field, pairs: seq<Pair>)
    requires b.Valid() && GoodSchema(sch) && f.shape.MapOf? && 0 < f.number < 0x2000_0000
    requires forall i | 0 <= i < |pairs| :: FitsPair(sch, f, pairs[i])
    modifies b, b.buff
    ensures b.Valid() && (b.buff == old(b.buff) || fresh(b.buff))
    ensures b.Contents() == old(b.Contents()) + EncodePairs(sch, f, pairs)
    decreases pairs, 3
  {
    ghost var was := b.Contents();
    var i := 0;
    assert was + EncodePairs(sch, f, pairs[0..]) == was + EncodePairs(sch, f, pairs) by { assert pairs[0..] == pairs; }
    while i < |pairs|
      invariant 0 <= i <= |pairs| && b.Valid() && (b.buff == old(b.buff) || fresh(b.buff))
      invariant b.Contents() + EncodePairs(sch, f, pairs[i..]) == was + EncodePairs(sch, f, pairs)
    {
      ghost var here := b.Contents();
      AddMapEntry(b, sch, f, pairs[i]);
      assert pairs[i..][1..] == pairs[i + 1..];
      Regroup(here, TagBytes(f.number, 2) + Delimited(PairBytes(sch, f, pairs[i])),
              EncodePairs(sch, f, pairs[i + 1..]));
      i := i + 1;
    }
    assert b.Contents() + [] == b.Contents();
  }

  lemma Regroup(a: seq<byte>, b: seq<byte>, c: seq<byte>)
    ensures a + (b + c) == (a + b) + c
  {
  }

  method AddMapEntry(b: ByteBuffer, sch: Schema, f: Field, p: Pair)
    requires b.Valid() && GoodSchema(sch) && f.shape.MapOf? && 0 < f.number < 0x2000_0000 && FitsPair(sch, f, p)
    modifies b, b.buff
    ensures b.Valid() && (b.buff == old(b.buff) || fresh(b.buff))
    ensures b.Contents() == old(b.Contents()) + (TagBytes(f.number, 2) + Delimited(PairBytes(sch, f, p)))
    decreases p, 2
  {
    ghost var was := b.Contents();
    var hlen := b.AddVarint32(Tag(f.number, 2));
    var len := b.size;
    ghost var tagged := b.Contents();
    AddTagField(b, sch, 1, f.shape.key, p.key, true);
    AddTagField(b, sch, 2, f.shape.value, p.value, true);
    Regroup(tagged, TagField(sch, 1, f.shape.key, p.key, true), TagField(sch, 2, f.shape.value, p.value, true));
    Enclose(b, len, tagged, PairBytes(sch, f, p));
    Regroup(was, TagBytes(f.number, 2), Delimited(PairBytes(sch, f, p)));
  }

  // lpbE_repeated: one record with all values, ...
  method AddPacked(b: ByteBuffer, sch: Schema, f: Field, items: seq<Lua>)
    requires b.Valid() && GoodSchema(sch) && FitsItems(sch, f.kind, items) && 0 < f.number < 0x2000_0000
    requires |EncodePacked(sch, f.kind, items)| < SIZE_LIMIT
    modifies b, b.buff
    ensures b.Valid() && (b.buff == old(b.buff) || fresh(b.buff))
    ensures b.Contents() == old(b.Contents()) + (TagBytes(f.number, 2) + Delimited(EncodePacked(sch, f.kind, items)))
    decreases items, 3
  {
    ghost var was := b.Contents();
    var hlen := b.AddVarint32(Tag(f.number, 2));
    var len := b.size;
    AddPackedValues(b, sch, f.kind, items);
    Enclose(b, len, was + TagBytes(f.number, 2), EncodePacked(sch, f.kind, items));
    Regroup(was, TagBytes(f.number, 2), Delimited(EncodePacked(sch, f.kind, items)));
  }

  method AddPackedValues(b: ByteBuffer, sch: Schema, k: Kind, items: seq<Lua>)
    requires b.Valid() && GoodSchema(sch) && FitsItems(sch, k, items)
    modifies b, b.buff
    ensures b.Valid() && (b.buff == old(b.buff) || fresh(b.buff))
    ensures b.Contents() == old(b.Contents()) + EncodePacked(sch, k, items)
    decreases items, 2
  {
    var i := 0;
    assert items[0..] == items;
    while i < |items|
      invariant 0 <= i <= |items| && b.Valid() && (b.buff == old(b.buff) || fresh(b.buff))
      invariant b.Contents() + EncodePacked(sch, k, items[i..]) == old(b.Contents()) + EncodePacked(sch, k, items)
    {
      ghost var here := b.Contents();
      var plen := AddField(b, sch, k, items[i]);
      assert items[i..][1..] == items[i + 1..];
      Regroup(here, FieldBytes(sch, k, items[i]), EncodePacked(sch, k, items[i + 1..]));
      i := i + 1;
    }
    assert b.Contents() + [] == b.Contents();
  }

  // ... or each value with its own tag.
  method AddItems(b: ByteBuffer, sch: Schema, f: Field, items: seq<Lua>)
    requires b.Valid() && GoodSchema(sch) && FitsItems(sch, f.kind, items) && 0 < f.number < 0x2000_0000
    modifies b, b.buff
    ensures b.Valid() && (b.buff == old(b.buff) || fresh(b.buff))
    ensures b.Contents() == old(b.Contents()) + EncodeItems(sch, f, items)
    decreases items, 3
  {
    var i := 0;
    assert items[0..] == items;
    while i < |items|
      invariant 0 <= i <= |items| && b.Valid() && (b.buff == old(b.buff) || fresh(b.buff))
      invariant b.Contents() + EncodeItems(sch, f, items[i..]) == old(b.Contents()) + EncodeItems(sch, f, items)
    {
      ghost var here := b.Contents();
      AddTagField(b, sch, f.number, f.kind, items[i], false);
      assert items[i..][1..] == items[i + 1..];
      Regroup(here, TagField(sch, f.number, f.kind, items[i], false), EncodeItems(sch, f, items[i + 1..]));
      i := i + 1;
    }
    assert b.Contents() + [] == b.Contents();
  }

  // lpb_encode
  method AddMessage(b: ByteBuffer, sch: Schema, t: MessageType, entries: seq<Entry>)
    requires b.Valid() && GoodSchema(sch) && GoodType(t) && FitsMessage(sch, t, entries)
    modifies b, b.buff
    ensures b.Valid() && (b.buff == old(b.buff) || fresh(b.buff))
    ensures b.Contents() == old(b.Contents()) + EncodeMessage(sch, t, entries)
    decreases entries, 3
  {
    ghost var was := b.Contents();
    var i := 0;
    assert entries[0..] == entries;
    while i < |entries|
      invariant 0 <= i <= |entries| && b.Valid() && (b.buff == old(b.buff) || fresh(b.buff))
      invariant b.Contents() + EncodeMessage(sch, t, entries[i..]) == was + EncodeMessage(sch, t, entries)
    {
      ghost var here := b.Contents();
      assert FitsEntry(sch, t, entries[i]);
      AddEntry(b, sch, t, entries[i]);
      assert entries[i..][1..] == entries[i + 1..];
      Regroup(here, EncodeEntry(sch, t, entries[i]), EncodeMessage(sch, t, entries[i + 1..]));
      i := i + 1;
    }
    assert b.Contents() + [] == b.Contents();
  }

  method AddEntry(b: ByteBuffer, sch: Schema, t: MessageType, e: Entry)
    requires b.Valid() && GoodSchema(sch) && GoodType(t) && FitsEntry(sch, t, e)
    modifies b, b.buff
    ensures b.Valid() && (b.buff == old(b.buff) || fresh(b.buff))
    ensures b.Contents() == old(b.Contents()) + EncodeEntry(sch, t, e)
    decreases e, 2
  {
    if e.name in t.byName {
      var f := t.byName[e.name];
      match f.shape {
        case MapOf(_, _) => AddPairs(b, sch, f, e.value.pairs);
        case Single => AddTagField(b, sch, f.number, f.kind, e.value, t.proto3 && !f.inOneof);
        case Packed => AddPacked(b, sch, f, e.value.items);
        case Repeated => AddItems(b, sch, f, e.value.items);
      }
    } else {
      assert b.Contents() + [] == b.Contents();
    }
  }

  // ---- Decoding ----

  // The table that is being filled is passed in and returned; None stands for a Lua error.

  // A read from `from` to `to` does what the function says; after an error the cursor does not
  // matter.
  predicate Agrees<T(==)>(spec: Option<Got<T>>, r: Option<T>, from: nat, to: nat) {
    match spec
    case None => r == None
    case Some(g) => r == Some(g.value) && to == from + g.size
  }

  // lpb_readtype
  method ReadScalarAt(s: Slice, k: Kind) returns (r: Option<Scalar>)
    requires s.Valid()
    modifies s`p
    ensures s.Valid() && Agrees(ReadScalar(k, old(s.Rest())), r, old(s.p), s.p)
  {
    ghost var d := s.Rest();
    if k == Fixed32 || k == SFixed32 {
      var size, n := ReadFixed(s, 4);
      Pow256Values();
      if size == 0 {
        return None;
      }
      return Some(Int(if k == Fixed32 then n else Signed32(n)));
    } else if k == Fixed64 || k == SFixed64 {
      var size, n := ReadFixed(s, 8);
      Pow256Values();
      if size == 0 {
        return None;
      }
      return Some(Int(Signed64(n)));
    } else if k == String || k == Bytes {
      var size, bytes := ReadBytes(s);
      if size == 0 {
        return None;
      }
      return Some(Text(bytes));
    } else if k.Msg? {
      return None;
    } else {
      var size, w := ReadVarint64(s);
      ReadsFit(d, size, w);
      if size == 0 {
        return None;
      }
      return Some(FromWord(k, w));
    }
  }

  // lpbD_rawfield: a message is decoded from a slice of its own.
  method ReadValueAt(s: Slice, sch: Schema, k: Kind) returns (r: Option<Value>)
    requires s.Valid()
    modifies s`p
    ensures s.Valid() && Agrees(ReadValue(sch, k, old(s.Rest())), r, old(s.p), s.p)
    decreases |s.data| - s.p, 0
  {
    if k.Msg? {
      ghost var left := |s.data| - s.p;
      var size, bytes := ReadBytes(s);
      if size == 0 || k.typeName !in sch {
        return None;
      }
      assert |bytes| < left;
      var sv := new Slice(bytes);
      assert sv.Rest() == bytes;
      var m := ReadMessage(sv, sch, sch[k.typeName], Defaults(sch[k.typeName]));
      return if m == None then None else Some(Rec(m.value));
    } else {
      var v := ReadScalarAt(s, k);
      return if v == None then None else Some(Plain(v.value));
    }
  }

  // lpbD_field
  method ReadFieldAt(s: Slice, sch: Schema, k: Kind, tag: nat) returns (r: Option<Value>)
    requires s.Valid()
    modifies s`p
    ensures s.Valid() && Agrees(ReadField(sch, k, tag, old(s.Rest())), r, old(s.p), s.p)
    decreases |s.data| - s.p, 1
  {
    if tag % 8 == WireOf(k) {
      r := ReadValueAt(s, sch, k);
    } else {
      return None;
    }
  }

  // A turn of the loop of lpbD_map that reads no value: the entry ends, or the tag is passed over.
  lemma PairPasses(sch: Schema, key: Kind, value: Kind, d: seq<byte>, count: nat, tag: nat, seen: Seen)
    requires Reads32(d, count, tag)
    ensures count == 0 ==> ReadPair(sch, key, value, d, seen) == Some(seen)
    ensures 0 < count <= |d| && Number(tag) != 1 && Number(tag) != 2 ==>
              ReadPair(sch, key, value, d, seen) == ReadPair(sch, key, value, d[count..], seen)
  {
    DecodeIsLocal(d, 10);
  }

  // A turn that reads one half of the pair.
  lemma PairTakes(sch: Schema, key: Kind, value: Kind, d: seq<byte>, count: nat, tag: nat, seen: Seen,
                  got: Option<Got<Value>>)
    requires Reads32(d, count, tag) && 0 < count <= |d| && (Number(tag) == 1 || Number(tag) == 2)
    requires got == ReadField(sch, HalfKind(key, value, Number(tag)), tag, d[count..])
    ensures got.Some? ==> got.value.size <= |d| - count
    ensures ReadPair(sch, key, value, d, seen) ==
            if got == None then None
            else ReadPair(sch, key, value, d[count + got.value.size..], With(seen, Number(tag), got.value.value))
  {
    if got.Some? {
      assert d[count..][got.value.size..] == d[count + got.value.size..];
    }
  }

  // What a turn of a decoding loop comes to.
  datatype Turn<T> = Done | Error | More(state: T)

  // The rest of the loop of lpbD_map, after a turn that left these bytes.
  ghost function RestOfPair(sch: Schema, key: Kind, value: Kind, seen: Seen, r: Turn<Seen>,
                            rest: seq<byte>): Option<Seen> {
    match r
    case Done => Some(seen)
    case Error => None
    case More(seen') => ReadPair(sch, key, value, rest, seen')
  }

  method PairTurn(s: Slice, sch: Schema, key: Kind, value: Kind, seen: Seen) returns (r: Turn<Seen>)
    requires s.Valid()
    modifies s`p
    ensures s.Valid() && (r.More? ==> s.p > old(s.p))
    ensures ReadPair(sch, key, value, old(s.Rest()), seen) == RestOfPair(sch, key, value, seen, r, s.Rest())
    decreases |s.data| - s.p, 4
  {
    ghost var d := s.Rest();
    var count, tag := ReadVarint32(s);
    ReadsFit(d, count, tag);
    assert d[count..] == s.Rest();
    r := PairField(s, sch, key, value, seen, d, count, tag);
  }

  method PairField(s: Slice, sch: Schema, key: Kind, value: Kind, seen: Seen, ghost d: seq<byte>, count: nat, tag: nat)
    returns (r: Turn<Seen>)
    requires s.Valid() && Reads32(d, count, tag) && count <= |d| && d[count..] == s.Rest()
    modifies s`p
    ensures s.Valid() && (r.More? ==> count > 0 && s.p >= old(s.p))
    ensures ReadPair(sch, key, value, d, seen) == RestOfPair(sch, key, value, seen, r, s.Rest())
    decreases |s.data| - s.p, 3
  {
    if count != 0 && (Number(tag) == 1 || Number(tag) == 2) {
      r := PairHalf(s, sch, key, value, seen, d, count, tag);
    } else {
      PairPasses(sch, key, value, d, count, tag, seen);
      r := if count == 0 then Done else More(seen);
    }
  }

  method PairHalf(s: Slice, sch: Schema, key: Kind, value: Kind, seen: Seen, ghost d: seq<byte>, ghost count: nat,
                  tag: nat)
    returns (r: Turn<Seen>)
    requires s.Valid() && Reads32(d, count, tag) && 0 < count <= |d| && d[count..] == s.Rest()
    requires Number(tag) == 1 || Number(tag) == 2
    modifies s`p
    ensures s.Valid() && !r.Done? && (r.More? ==> s.p >= old(s.p))
    ensures ReadPair(sch, key, value, d, seen) == RestOfPair(sch, key, value, seen, r, s.Rest())
    decreases |s.data| - s.p, 2
  {
    ghost var got := ReadField(sch, HalfKind(key, value, Number(tag)), tag, s.Rest());
    PairTakes(sch, key, value, d, count, tag, seen, got);
    var v := ReadFieldAt(s, sch, HalfKind(key, value, Number(tag)), tag);
    if v == None {
      return Error;
    }
    assert s.Rest() == d[count + got.value.size..];
    return More(With(seen, Number(tag), v.value));
  }

  // The loop of lpbD_map over one entry.
  method ReadPairAt(s: Slice, sch: Schema, key: Kind, value: Kind) returns (r: Option<Seen>)
    requires s.Valid()
    modifies s`p
    ensures s.Valid() && r == ReadPair(sch, key, value, old(s.Rest()), Seen(None, None))
    decreases |s.data| - s.p, 5
  {
    var seen := Seen(None, None);
    while true
      invariant s.Valid() && s.p >= old(s.p)
      invariant ReadPair(sch, key, value, s.Rest(), seen) == ReadPair(sch, key, value, old(s.Rest()), Seen(None, None))
      decreases |s.data| - s.p
    {
      var turn := PairTurn(s, sch, key, value, seen);
      match turn {
        case Done => return Some(seen);
        case Error => return None;
        case More(seen') => seen := seen';
      }
    }
  }

  // Values read before, if the rest can be read.
  ghost function Prepend(vs: seq<Value>, more: Option<seq<Value>>): Option<seq<Value>> {
    if more == None then None else Some(vs + more.value)
  }

  lemma PackedStep(sch: Schema, k: Kind, d: seq<byte>, vs: seq<Value>)
    requires d != []
    ensures ReadValue(sch, k, d) == None ==> Prepend(vs, ReadPacked(sch, k, d)) == None
    ensures ReadValue(sch, k, d).Some? ==>
              var v := ReadValue(sch, k, d).value;
              Prepend(vs, ReadPacked(sch, k, d)) == Prepend(vs + [v.value], ReadPacked(sch, k, d[v.size..]))
  {
    if ReadValue(sch, k, d).Some? {
      var v := ReadValue(sch, k, d).value;
      var more := ReadPacked(sch, k, d[v.size..]);
      if more.Some? {
        assert vs + ([v.value] + more.value) == (vs + [v.value]) + more.value;
      }
    }
  }

  method PackedTurn(s: Slice, sch: Schema, k: Kind, values: seq<Value>) returns (v: Option<Value>)
    requires s.Valid() && s.p < |s.data|
    modifies s`p
    ensures s.Valid() && (v.Some? ==> s.p > old(s.p))
    ensures Prepend(values, ReadPacked(sch, k, old(s.Rest()))) ==
            if v == None then None else Prepend(values + [v.value], ReadPacked(sch, k, s.Rest()))
    decreases |s.data| - s.p, 1
  {
    ghost var d := s.Rest();
    PackedStep(sch, k, d, values);
    v := ReadValueAt(s, sch, k);
    if v.Some? {
      assert s.Rest() == d[ReadValue(sch, k, d).value.size..];
    }
  }

  // The values of a packed field.
  method ReadPackedAt(s: Slice, sch: Schema, k: Kind) returns (r: Option<seq<Value>>)
    requires s.Valid()
    modifies s`p
    ensures s.Valid() && r == ReadPacked(sch, k, old(s.Rest()))
    decreases |s.data| - s.p, 2
  {
    var values := [];
    ghost var all := ReadPacked(sch, k, s.Rest());
    if all.Some? {
      assert [] + all.value == all.value;
    }
    while s.p < |s.data|
      invariant s.Valid() && s.p >= old(s.p) && Prepend(values, ReadPacked(sch, k, s.Rest())) == all
      decreases |s.data| - s.p
    {
      var v := PackedTurn(s, sch, k, values);
      if v == None {
        return None;
      }
      values := values + [v.value];
    }
    assert values + [] == values;
    return Some(values);
  }

  // lpbD_map
  method ReadMapAt(s: Slice, sch: Schema, f: Field, tag: nat, m: map<string, Value>)
    returns (r: Option<map<string, Value>>)
    requires s.Valid() && f.shape.MapOf?
    modifies s`p
    ensures s.Valid() && Agrees(DecodeField(sch, f, tag, old(s.Rest()), m), r, old(s.p), s.p)
    decreases |s.data| - s.p, 3
  {
    ghost var left := |s.data| - s.p;
    var size, bytes := ReadBytes(s);
    if size == 0 {
      return None;
    }
    assert |bytes| < left;
    var p := new Slice(bytes);
    assert p.Rest() == bytes;
    var seen := ReadPairAt(p, sch, f.shape.key, f.shape.value);
    if seen == None {
      return None;
    }
    return Some(m[f.name := Assoc(AddPair(AssocAt(m, f.name), f.shape.key, f.shape.value, seen.value))]);
  }

  // lpbD_repeated
  method ReadRepeatedAt(s: Slice, sch: Schema, f: Field, tag: nat, m: map<string, Value>)
    returns (r: Option<map<string, Value>>)
    requires s.Valid() && (f.shape == Repeated || f.shape == Packed)
    modifies s`p
    ensures s.Valid() && Agrees(DecodeField(sch, f, tag, old(s.Rest()), m), r, old(s.p), s.p)
    decreases |s.data| - s.p, 3
  {
    if tag % 8 != 2 || (f.shape == Repeated && WireOf(f.kind) == 2) {
      var v := ReadFieldAt(s, sch, f.kind, tag);
      return if v == None then None else Some(m[f.name := Arr(ArrayAt(m, f.name) + [v.value])]);
    }
    ghost var left := |s.data| - s.p;
    var size, bytes := ReadBytes(s);
    if size == 0 {
      return None;
    }
    assert |bytes| < left;
    var p := new Slice(bytes);
    assert p.Rest() == bytes;
    var vs := ReadPackedAt(p, sch, f.kind);
    return if vs == None then None else Some(m[f.name := Arr(ArrayAt(m, f.name) + vs.value)]);
  }

  // The three ways a turn of the loop of lpbD_message can go.
  lemma MessageEnds(sch: Schema, t: MessageType, d: seq<byte>, tag: nat, m: map<string, Value>)
    requires Reads32(d, 0, tag)
    ensures DecodeMessage(sch, t, d, m) == Some(m)
  {
    DecodeIsLocal(d, 10);
  }

  lemma MessageSkips(sch: Schema, t: MessageType, d: seq<byte>, count: nat, tag: nat, m: map<string, Value>, n: nat)
    requires Reads32(d, count, tag) && 0 < count <= |d| && Number(tag) !in t.byNumber && n == Skip(d[count..], tag)
    ensures DecodeMessage(sch, t, d, m) == DecodeMessage(sch, t, d[count + n..], m)
  {
    assert d[count..][n..] == d[count + n..];
  }

  lemma MessageTakes(sch: Schema, t: MessageType, d: seq<byte>, count: nat, tag: nat, m: map<string, Value>,
                     got: Option<Got<map<string, Value>>>)
    requires Reads32(d, count, tag) && 0 < count <= |d| && Number(tag) in t.byNumber
    requires got == DecodeField(sch, t.byNumber[Number(tag)], tag, d[count..], m)
    ensures got.Some? ==> got.value.size <= |d| - count
    ensures DecodeMessage(sch, t, d, m) ==
            if got == None then None else DecodeMessage(sch, t, d[count + got.value.size..], got.value.value)
  {
    if got.Some? {
      assert d[count..][got.value.size..] == d[count + got.value.size..];
    }
  }

  // The rest of the loop of lpbD_message, after a turn that left these bytes.
  ghost function RestOfMessage(sch: Schema, t: MessageType, m: map<string, Value>, r: Turn<map<string, Value>>,
                               rest: seq<byte>):
    Option<map<string, Value>>
  {
    match r
    case Done => Some(m)
    case Error => None
    case More(m') => DecodeMessage(sch, t, rest, m')
  }

  method MessageTurn(s: Slice, sch: Schema, t: MessageType, m: map<string, Value>) returns (r: Turn<map<string, Value>>)
    requires s.Valid()
    modifies s`p
    ensures s.Valid() && (r.More? ==> s.p > old(s.p))
    ensures DecodeMessage(sch, t, old(s.Rest()), m) == RestOfMessage(sch, t, m, r, s.Rest())
    decreases |s.data| - s.p, 6
  {
    ghost var d := s.Rest();
    var count, tag := ReadVarint32(s);
    ReadsFit(d, count, tag);
    assert d[count..] == s.Rest();
    if count == 0 {
      MessageEnds(sch, t, d, tag, m);
      r := Done;
    } else if Number(tag) in t.byNumber {
      r := KnownField(s, sch, t, m, d, count, tag);
    } else {
      r := UnknownField(s, sch, t, m, d, count, tag);
    }
  }

  // A field that the type does not have is skipped; if that fails, only its tag is.
  method UnknownField(s: Slice, sch: Schema, t: MessageType, m: map<string, Value>, ghost d: seq<byte>,
                      ghost count: nat, tag: nat)
    returns (r: Turn<map<string, Value>>)
    requires s.Valid() && Reads32(d, count, tag) && 0 < count <= |d| && d[count..] == s.Rest()
    requires Number(tag) !in t.byNumber
    modifies s`p
    ensures s.Valid() && r.More? && s.p >= old(s.p)
    ensures DecodeMessage(sch, t, d, m) == RestOfMessage(sch, t, m, r, s.Rest())
    decreases |s.data| - s.p, 5
  {
    var n := SkipValue(s, tag);
    MessageSkips(sch, t, d, count, tag, m, n);
    assert s.Rest() == d[count + n..];
    return More(m);
  }

  method KnownField(s: Slice, sch: Schema, t: MessageType, m: map<string, Value>, ghost d: seq<byte>,
                    ghost count: nat, tag: nat)
    returns (r: Turn<map<string, Value>>)
    requires s.Valid() && Reads32(d, count, tag) && 0 < count <= |d| && d[count..] == s.Rest()
    requires Number(tag) in t.byNumber
    modifies s`p
    ensures s.Valid() && !r.Done? && (r.More? ==> s.p >= old(s.p))
    ensures DecodeMessage(sch, t, d, m) == RestOfMessage(sch, t, m, r, s.Rest())
    decreases |s.data| - s.p, 5
  {
    ghost var got := DecodeField(sch, t.byNumber[Number(tag)], tag, s.Rest(), m);
    MessageTakes(sch, t, d, count, tag, m, got);
    var next := ReadOne(s, sch, t.byNumber[Number(tag)], tag, m);
    if next == None {
      return Error;
    }
    assert s.Rest() == d[count + got.value.size..];
    return More(next.value);
  }

  // lpbD_message
  method ReadMessage(s: Slice, sch: Schema, t: MessageType, m0: map<string, Value>)
    returns (r: Option<map<string, Value>>)
    requires s.Valid()
    modifies s`p
    ensures s.Valid() && r == DecodeMessage(sch, t, old(s.Rest()), m0)
    decreases |s.data| - s.p, 7
  {
    var m := m0;
    while true
      invariant s.Valid() && s.p >= old(s.p)
      invariant DecodeMessage(sch, t, s.Rest(), m) == DecodeMessage(sch, t, old(s.Rest()), m0)
      decreases |s.data| - s.p
    {
      var turn := MessageTurn(s, sch, t, m);
      match turn {
        case Done => return Some(m);
        case Error => return None;
        case More(m') => m := m';
      }
    }
  }

  // The value of a known field.
  method ReadOne(s: Slice, sch: Schema, f: Field, tag: nat, m: map<string, Value>)
    returns (r: Option<map<string, Value>>)
    requires s.Valid()
    modifies s`p
    ensures s.Valid() && Agrees(DecodeField(sch, f, tag, old(s.Rest()), m), r, old(s.p), s.p)
    decreases |s.data| - s.p, 4
  {
    match f.shape {
      case MapOf(_, _) => r := ReadMapAt(s, sch, f, tag, m);
      case Single =>
        var v := ReadFieldAt(s, sch, f.kind, tag);
        r := if v == None then None else Some(m[f.name := v.value]);
      case _ => r := ReadRepeatedAt(s, sch, f, tag, m);
    }
  }
}
