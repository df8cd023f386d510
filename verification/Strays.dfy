/** Fields that a map entry should not have. The loop over an entry reads a tag, and if its number is
    neither 1 nor 2 it goes on with the next tag: the field's value is not skipped, so its bytes are
    read as tags and fields of the entry.

    `PassedOver` is the exact condition under which this does no harm.
 */
module Strays {
  import opened Common
  import opened Words
  import opened Varint
  import opened Wire
  import opened Message

  const NOTHING := Seen(None, None)

  predicate IsHalf(tag: nat) { Number(tag) == 1 || Number(tag) == 2 }

  // The bytes are whole tags, none of them of a key or a value.
  predicate PassedOver(p: seq<byte>) {
    DecodeIsLocal(p, 10);
    p == [] ||
    match Decode(p, 10)
    case None => false
    case Some(r) => !IsHalf(U32(r.value)) && PassedOver(p[r.size..])
  }

  // In front of whatever is left of an entry, the bytes change nothing.
  ghost predicate Harmless(sch: Schema, key: Kind, value: Kind, p: seq<byte>) {
    forall rest, seen :: SameWithout(sch, key, value, p, rest, seen)
  }

  ghost predicate SameWithout(sch: Schema, key: Kind, value: Kind, p: seq<byte>, rest: seq<byte>, seen: Seen) {
    ReadPair(sch, key, value, p + rest, seen) == ReadPair(sch, key, value, rest, seen)
  }

  // A varint at the front of p is read whatever follows p.
  lemma FrontTag(p: seq<byte>, rest: seq<byte>)
    requires Decode(p, 10).Some?
    ensures var r := Decode(p, 10).value;
            0 < r.size <= |p| && Decode(p + rest, 10) == Some(r) && (p + rest)[r.size..] == p[r.size..] + rest
  {
    DecodeIsLocal(p, 10);
    var n := Decode(p, 10).value.size;
    assert (p + rest)[..n] == p[..n];
    DecodeIgnoresRest(p, p + rest, 10);
  }

  lemma {:induction false} PassedOverIsHarmless(sch: Schema, key: Kind, value: Kind, p: seq<byte>, rest: seq<byte>,
                                                seen: Seen)
    requires PassedOver(p)
    ensures SameWithout(sch, key, value, p, rest, seen)
    decreases |p|
  {
    if p == [] {
      assert [] + rest == rest;
    } else {
      FrontTag(p, rest);
      PassedOverIsHarmless(sch, key, value, p[Decode(p, 10).value.size..], rest, seen);
    }
  }

  // A half that was seen stays seen.
  lemma {:induction false} SeenStays(sch: Schema, key: Kind, value: Kind, b: seq<byte>, seen: Seen)
    ensures match ReadPair(sch, key, value, b, seen)
            case None => true
            case Some(s) => (seen.key.Some? ==> s.key.Some?) && (seen.value.Some? ==> s.value.Some?)
    decreases |b|
  {
    DecodeIsLocal(b, 10);
    if Decode(b, 10).Some? {
      var r := Decode(b, 10).value;
      var tag, rest := U32(r.value), b[r.size..];
      if IsHalf(tag) {
        var v := ReadField(sch, HalfKind(key, value, Number(tag)), tag, rest);
        if v.Some? {
          SeenStays(sch, key, value, rest[v.value.size..], With(seen, Number(tag), v.value.value));
        }
      } else {
        SeenStays(sch, key, value, rest, seen);
      }
    }
  }

  lemma ByteRead(c: byte, rest: seq<byte>)
    requires c < 0x80
    ensures Decode([c] + rest, 10) == Some(Varint.Read(c, 1)) && ([c] + rest)[1..] == rest
    ensures U32(c) == c == U64(c)
  {
  }

  lemma NoMore(sch: Schema, key: Kind, value: Kind, k: Kind, tag: nat, seen: Seen)
    ensures ReadPair(sch, key, value, [], seen) == Some(seen)
    ensures ReadField(sch, k, tag, []) == None
  {
    DecodeIsLocal([], 10);
  }

  // A tag with number 0 says nothing, and one of a key with wire type 7 is an error.
  lemma ZeroRest(sch: Schema, key: Kind, value: Kind, seen: Seen)
    ensures ReadPair(sch, key, value, [0], seen) == Some(seen)
  {
    assert [0] + [] == [0];
    ByteRead(0, []);
    NoMore(sch, key, value, key, 0, seen);
  }

  lemma BadRest(sch: Schema, key: Kind, value: Kind, seen: Seen)
    ensures ReadPair(sch, key, value, [15], seen) == None
  {
    assert [15] + [] == [15];
    ByteRead(15, []);
    assert ReadField(sch, key, 15, []) == None;
  }

  // The start of a tag takes in what follows it.
  lemma OpenTag(sch: Schema, key: Kind, value: Kind, p: seq<byte>) returns (rest: seq<byte>)
    requires p != [] && Decode(p, 10) == None
    ensures !SameWithout(sch, key, value, p, rest, NOTHING)
  {
    if |p| >= 10 {
      rest := [15];
      EndlessTag(sch, key, value, p);
    } else if IsHalf(U32(Low(p, |p|))) {
      rest := [0];
      HalfTag(sch, key, value, p);
    } else {
      rest := [15];
      OtherTag(sch, key, value, p);
    }
  }

  lemma HalfTag(sch: Schema, key: Kind, value: Kind, p: seq<byte>)
    requires p != [] && Decode(p, 10) == None && |p| < 10 && IsHalf(U32(Low(p, |p|)))
    ensures !SameWithout(sch, key, value, p, [0], NOTHING)
  {
    ZeroRest(sch, key, value, NOTHING);
    OpenTagRead(p, 0);
    LastTag(sch, key, value, p + [0]);
  }

  lemma OtherTag(sch: Schema, key: Kind, value: Kind, p: seq<byte>)
    requires p != [] && Decode(p, 10) == None && |p| < 10 && !IsHalf(U32(Low(p, |p|)))
    ensures !SameWithout(sch, key, value, p, [15], NOTHING)
  {
    BadRest(sch, key, value, NOTHING);
    OpenTagRead(p, 15);
    LastTag(sch, key, value, p + [15]);
  }

  lemma EndlessTag(sch: Schema, key: Kind, value: Kind, p: seq<byte>)
    requires |p| >= 10 && Decode(p, 10) == None
    ensures !SameWithout(sch, key, value, p, [15], NOTHING)
  {
    BadRest(sch, key, value, NOTHING);
    DecodeIsLocal(p, 10);
    assert GoesOn(p + [15], 10);
    TenBytes(p + [15]);
  }

  // A tag with nothing after it.
  lemma LastTag(sch: Schema, key: Kind, value: Kind, b: seq<byte>)
    requires Decode(b, 10).Some? && Decode(b, 10).value.size == |b|
    ensures ReadPair(sch, key, value, b, NOTHING) ==
            if IsHalf(U32(Decode(b, 10).value.value)) then None else Some(NOTHING)
  {
    var tag := U32(Decode(b, 10).value.value);
    assert b[|b|..] == [];
    NoMore(sch, key, value, HalfKind(key, value, Number(tag)), tag, NOTHING);
  }

  lemma OpenTagRead(p: seq<byte>, c: byte)
    requires p != [] && Decode(p, 10) == None && |p| < 10 && (c == 0 || (c == 15 && !IsHalf(U32(Low(p, |p|)))))
    ensures Decode(p + [c], 10).Some?
    ensures var r := Decode(p + [c], 10).value;
            r.size == |p| + 1 && (c == 0 ==> r.value == Low(p, |p|)) && (c == 15 ==> !IsHalf(U32(r.value)))
  {
    var d, k := p + [c], |p|;
    DecodeIsLocal(p, 10);
    assert forall i | 0 <= i < k :: d[i] == p[i];
    LowIsLocal(d, p, k);
    NextByte(d, k);
    if c == 0 {
      ShiftOfNothing(k);
    } else {
      NoHalfTag(p, k);
    }
  }

  lemma {:induction false} ShiftOfNothing(k: nat)
    ensures Shift(0, k) == 0
  {
    if k > 0 {
      ShiftOfNothing(k - 1);
    }
  }

  lemma {:induction false} LowIsLocal(d: seq<byte>, p: seq<byte>, k: nat)
    requires k <= |d| && k <= |p| && d[..k] == p[..k]
    ensures Low(d, k) == Low(p, k)
  {
    if k > 0 {
      assert d[k - 1] == d[..k][k - 1] == p[..k][k - 1] == p[k - 1];
      assert d[..k - 1] == d[..k][..k - 1] == p[..k][..k - 1] == p[..k - 1];
      LowIsLocal(d, p, k - 1);
    }
  }

  // With a last byte of 15 the tag has a large number, or the one that it has without.
  lemma NoHalfTag(p: seq<byte>, k: nat)
    requires 0 < k <= |p| && !IsHalf(U32(Low(p, k)))
    ensures !IsHalf(U32(Low(p, k) + Shift(15, k)))
  {
    ShiftValues(15);
    if k >= 5 {
      var q := HighGroup(k, 15);
      Same32(Low(p, k) + Shift(15, k), Low(p, k), q);
    } else {
      LowBound(p, k);
      ShiftValues(1);
    }
  }

  lemma {:induction false} LowBound(p: seq<byte>, k: nat)
    requires k <= |p|
    ensures Low(p, k) < Shift(1, k)
  {
    if k > 0 {
      LowBound(p, k - 1);
      var x := p[k - 1] % 0x80;
      ShiftOnce(1, k - 1);
      ShiftAdds(x + 1, 0x7f - x, k - 1);
      ShiftAdds(x, 1, k - 1);
    }
  }

  lemma {:induction false} Misread(sch: Schema, key: Kind, value: Kind, p: seq<byte>) returns (rest: seq<byte>)
    requires !PassedOver(p)
    ensures !SameWithout(sch, key, value, p, rest, NOTHING)
    decreases |p|
  {
    DecodeIsLocal(p, 10);
    if Decode(p, 10) == None {
      rest := OpenTag(sch, key, value, p);
    } else if IsHalf(U32(Decode(p, 10).value.value)) {
      rest := [];
      HalfIsSeen(sch, key, value, p);
    } else {
      var n := Decode(p, 10).value.size;
      rest := Misread(sch, key, value, p[n..]);
      FrontTag(p, rest);
    }
  }

  lemma HalfIsSeen(sch: Schema, key: Kind, value: Kind, p: seq<byte>)
    requires Decode(p, 10).Some? && IsHalf(U32(Decode(p, 10).value.value))
    ensures !SameWithout(sch, key, value, p, [], NOTHING)
  {
    assert p + [] == p;
    NoMore(sch, key, value, key, 0, NOTHING);
    SomeHalf(sch, key, value, p);
  }

  lemma SomeHalf(sch: Schema, key: Kind, value: Kind, p: seq<byte>)
    requires Decode(p, 10).Some? && IsHalf(U32(Decode(p, 10).value.value))
    ensures ReadPair(sch, key, value, p, NOTHING) != Some(NOTHING)
  {
    DecodeIsLocal(p, 10);
    var r := Decode(p, 10).value;
    var tag, rest := U32(r.value), p[r.size..];
    var v := ReadField(sch, HalfKind(key, value, Number(tag)), tag, rest);
    if v.Some? {
      SeenStays(sch, key, value, rest[v.value.size..], With(NOTHING, Number(tag), v.value.value));
    }
  }

  /** The value of an unknown field does no harm in a map entry, whatever follows and whatever was seen
      before, if and only if its bytes are whole tags of neither the key nor the value. */
  lemma HarmlessIffPassedOver(sch: Schema, key: Kind, value: Kind, p: seq<byte>)
    ensures Harmless(sch, key, value, p) <==> PassedOver(p)
  {
    if PassedOver(p) {
      forall rest, seen ensures SameWithout(sch, key, value, p, rest, seen) {
        PassedOverIsHarmless(sch, key, value, p, rest, seen);
      }
    } else {
      var rest := Misread(sch, key, value, p);
      assert !SameWithout(sch, key, value, p, rest, NOTHING);
    }
  }

  // ---- What a sender can test ----

  lemma PassedOverAfter(a: seq<byte>, b: seq<byte>)
    requires IsVarint(a)
    ensures PassedOver(a + b) <==> !IsHalf(TagOf(a)) && PassedOver(b)
  {
    VarintComplete(a, b);
    assert (a + b)[|a|..] == b;
  }

  lemma OneVarint(w: nat, rest: seq<byte>)
    requires w < SIZE_LIMIT
    ensures IsVarint(Encode(w)) && Decode(Encode(w), 10).value.value == w
  {
    TenGroups();
    DecodeEncode(w, [], 10);
    assert Encode(w) + [] == Encode(w);
  }

  // An unknown field as a whole.
  lemma FieldIsHarmless(sch: Schema, key: Kind, value: Kind, number: nat, wire: nat, p: seq<byte>)
    requires 0 < number < 0x2000_0000 && wire < 8 && number != 1 && number != 2
    ensures Harmless(sch, key, value, TagBytes(number, wire) + p) <==> PassedOver(p)
  {
    OneVarint(Tag(number, wire), p);
    TagRead(number, wire, p);
    PassedOverAfter(TagBytes(number, wire), p);
    HarmlessIffPassedOver(sch, key, value, TagBytes(number, wire) + p);
  }

  // A varint: the number itself is taken for a tag.
  lemma VarintIsHarmless(sch: Schema, key: Kind, value: Kind, w: nat)
    requires w < SIZE_LIMIT
    ensures Harmless(sch, key, value, Encode(w)) <==> Number(U32(w)) != 1 && Number(U32(w)) != 2
  {
    OneVarint(w, []);
    PassedOverAfter(Encode(w), []);
    assert Encode(w) + [] == Encode(w);
    HarmlessIffPassedOver(sch, key, value, Encode(w));
  }

  // A length-delimited record: so is its length, and then its payload is read. Eight to 23 bytes always
  // do harm.
  lemma RecordIsHarmless(sch: Schema, key: Kind, value: Kind, d: seq<byte>)
    requires |d| < SIZE_LIMIT
    ensures Harmless(sch, key, value, Delimited(d)) <==> Number(U32(|d|)) != 1 && Number(U32(|d|)) != 2 && PassedOver(d)
    ensures 8 <= |d| < 24 ==> !Harmless(sch, key, value, Delimited(d))
  {
    OneVarint(|d|, d);
    PassedOverAfter(Encode(|d|), d);
    HarmlessIffPassedOver(sch, key, value, Delimited(d));
  }

  // ---- Whole entries ----

  // The entry as it is meant: unknown fields are skipped, and a value that cannot be skipped is an error.
  function MeantPair(sch: Schema, key: Kind, value: Kind, b: seq<byte>, seen: Seen): Option<Seen>
    decreases |b|
  {
    DecodeIsLocal(b, 10);
    match Decode(b, 10)
    case None => Some(seen)
    case Some(r) =>
      var tag := U32(r.value);
      var rest := b[r.size..];
      if IsHalf(tag) then
        match ReadField(sch, HalfKind(key, value, Number(tag)), tag, rest)
        case None => None
        case Some(v) => MeantPair(sch, key, value, rest[v.size..], With(seen, Number(tag), v.value))
      else if Skip(rest, tag) == 0 then None
      else MeantPair(sch, key, value, rest[Skip(rest, tag)..], seen)
  }

  // The value of every unknown field is passed over.
  predicate StraysPass(sch: Schema, key: Kind, value: Kind, b: seq<byte>)
    decreases |b|
  {
    DecodeIsLocal(b, 10);
    match Decode(b, 10)
    case None => true
    case Some(r) =>
      var tag := U32(r.value);
      var rest := b[r.size..];
      if IsHalf(tag) then
        match ReadField(sch, HalfKind(key, value, Number(tag)), tag, rest)
        case None => true
        case Some(v) => StraysPass(sch, key, value, rest[v.size..])
      else PassedOver(rest[..Skip(rest, tag)]) && StraysPass(sch, key, value, rest[Skip(rest, tag)..])
  }

  // The code reads the entry as it is meant, if it is meant to be read.
  ghost predicate ReadAsMeant(sch: Schema, key: Kind, value: Kind, b: seq<byte>, seen: Seen) {
    MeantPair(sch, key, value, b, seen).Some? ==>
      ReadPair(sch, key, value, b, seen) == MeantPair(sch, key, value, b, seen)
  }

  // A turn of the two loops at a key or a value, ...
  lemma HalfTurn(sch: Schema, key: Kind, value: Kind, b: seq<byte>, seen: Seen, v: Got<Value>)
    requires Decode(b, 10).Some? && IsHalf(U32(Decode(b, 10).value.value)) && Decode(b, 10).value.size <= |b|
    requires var tag := U32(Decode(b, 10).value.value);
             ReadField(sch, HalfKind(key, value, Number(tag)), tag, b[Decode(b, 10).value.size..]) == Some(v)
    requires ReadAsMeant(sch, key, value, b[Decode(b, 10).value.size..][v.size..],
                         With(seen, Number(U32(Decode(b, 10).value.value)), v.value))
    ensures ReadAsMeant(sch, key, value, b, seen)
  {
  }

  // ... and at an unknown field.
  lemma StrayTurn(sch: Schema, key: Kind, value: Kind, b: seq<byte>, seen: Seen, n: nat)
    requires Decode(b, 10).Some? && !IsHalf(U32(Decode(b, 10).value.value)) && Decode(b, 10).value.size <= |b|
    requires n == Skip(b[Decode(b, 10).value.size..], U32(Decode(b, 10).value.value))
    requires PassedOver(b[Decode(b, 10).value.size..][..n])
    requires ReadAsMeant(sch, key, value, b[Decode(b, 10).value.size..][n..], seen)
    ensures ReadAsMeant(sch, key, value, b, seen)
  {
    var rest := b[Decode(b, 10).value.size..];
    PassedOverIsHarmless(sch, key, value, rest[..n], rest[n..], seen);
    assert rest[..n] + rest[n..] == rest;
  }

  lemma {:induction false} EntryIsReadAsMeant(sch: Schema, key: Kind, value: Kind, b: seq<byte>, seen: Seen)
    requires StraysPass(sch, key, value, b)
    ensures ReadAsMeant(sch, key, value, b, seen)
    decreases |b|, 1
  {
    DecodeIsLocal(b, 10);
    if Decode(b, 10).Some? {
      if IsHalf(U32(Decode(b, 10).value.value)) {
        HalfThenRest(sch, key, value, b, seen);
      } else {
        StrayThenRest(sch, key, value, b, seen);
      }
    }
  }

  lemma {:induction false} HalfThenRest(sch: Schema, key: Kind, value: Kind, b: seq<byte>, seen: Seen)
    requires StraysPass(sch, key, value, b) && Decode(b, 10).Some? && IsHalf(U32(Decode(b, 10).value.value))
    ensures ReadAsMeant(sch, key, value, b, seen)
    decreases |b|, 0
  {
    DecodeIsLocal(b, 10);
    var tag, rest := U32(Decode(b, 10).value.value), b[Decode(b, 10).value.size..];
    var v := ReadField(sch, HalfKind(key, value, Number(tag)), tag, rest);
    if v.Some? {
      EntryIsReadAsMeant(sch, key, value, rest[v.value.size..], With(seen, Number(tag), v.value.value));
      HalfTurn(sch, key, value, b, seen, v.value);
    }
  }

  lemma {:induction false} StrayThenRest(sch: Schema, key: Kind, value: Kind, b: seq<byte>, seen: Seen)
    requires StraysPass(sch, key, value, b) && Decode(b, 10).Some? && !IsHalf(U32(Decode(b, 10).value.value))
    ensures ReadAsMeant(sch, key, value, b, seen)
    decreases |b|, 0
  {
    DecodeIsLocal(b, 10);
    var rest := b[Decode(b, 10).value.size..];
    var n := Skip(rest, U32(Decode(b, 10).value.value));
    EntryIsReadAsMeant(sch, key, value, rest[n..], seen);
    StrayTurn(sch, key, value, b, seen, n);
  }

  // ---- A legal entry under a wrong key ----

  // Key 1, value 5; and the same with a varint field 3 in between.
  const ENTRY: seq<byte> := [0x08, 1, 0x10, 5]
  const STRAYED: seq<byte> := [0x08, 1, 0x18, 8, 0x10, 5]

  lemma HalfRead(sch: Schema, n: nat, x: byte, rest: seq<byte>, seen: Seen)
    requires 1 <= n <= 2 && x < 0x80
    ensures ReadPair(sch, Kind.Int32, Kind.Int32, [8 * n, x] + rest, seen) ==
            ReadPair(sch, Kind.Int32, Kind.Int32, rest, With(seen, n, Plain(Int(x))))
  {
    var b := [8 * n, x] + rest;
    assert b == [8 * n] + ([x] + rest);
    ByteRead(8 * n, [x] + rest);
    ByteRead(x, rest);
    assert FromWord(Kind.Int32, x) == Int(x);
    assert ReadField(sch, Kind.Int32, 8 * n, [x] + rest) == Some(Got(Plain(Int(x)), 1));
  }

  lemma StrayRead(sch: Schema, c: byte, rest: seq<byte>, seen: Seen)
    requires c < 8 || 24 <= c < 0x80
    ensures ReadPair(sch, Kind.Int32, Kind.Int32, [c] + rest, seen) == ReadPair(sch, Kind.Int32, Kind.Int32, rest, seen)
  {
    ByteRead(c, rest);
  }

  lemma EntryRead(sch: Schema)
    ensures ReadPair(sch, Kind.Int32, Kind.Int32, ENTRY, NOTHING) ==
            Some(Seen(Some(Plain(Int(1))), Some(Plain(Int(5)))))
  {
    assert ENTRY == [0x08, 1] + ([0x10, 5] + []);
    HalfRead(sch, 1, 1, [0x10, 5] + [], NOTHING);
    HalfRead(sch, 2, 5, [], With(NOTHING, 1, Plain(Int(1))));
  }

  // The stray value 8 is taken for the tag of a key, and the value's tag for this key.
  lemma StrayedRead(sch: Schema)
    ensures ReadPair(sch, Kind.Int32, Kind.Int32, STRAYED, NOTHING) == Some(Seen(Some(Plain(Int(16))), None))
  {
    var rest: seq<byte> := [0x18] + ([0x08, 0x10] + ([5] + []));
    assert STRAYED == [0x08, 1] + rest;
    HalfRead(sch, 1, 1, rest, NOTHING);
    StrayRead(sch, 0x18, [0x08, 0x10] + ([5] + []), With(NOTHING, 1, Plain(Int(1))));
    HalfRead(sch, 1, 0x10, [5] + [], With(NOTHING, 1, Plain(Int(1))));
    StrayRead(sch, 5, [], With(NOTHING, 1, Plain(Int(16))));
  }

  // Both entries are well formed fields, and skipping the stray one gives the pair.
  lemma StrayedIsMeant(sch: Schema)
    ensures MeantPair(sch, Kind.Int32, Kind.Int32, STRAYED, NOTHING) ==
            Some(Seen(Some(Plain(Int(1))), Some(Plain(Int(5)))))
  {
    var rest: seq<byte> := [0x18] + ([8] + ([0x10, 5] + []));
    assert STRAYED == [0x08, 1] + rest;
    MeantHalf(sch, 1, 1, rest, NOTHING);
    ByteRead(0x18, [8] + ([0x10, 5] + []));
    assert Skip([8] + ([0x10, 5] + []), 0x18) == 1;
    assert ([8] + ([0x10, 5] + []))[1..] == [0x10, 5] + [];
    MeantHalf(sch, 2, 5, [], With(NOTHING, 1, Plain(Int(1))));
  }

  lemma MeantHalf(sch: Schema, n: nat, x: byte, rest: seq<byte>, seen: Seen)
    requires 1 <= n <= 2 && x < 0x80
    ensures MeantPair(sch, Kind.Int32, Kind.Int32, [8 * n, x] + rest, seen) ==
            MeantPair(sch, Kind.Int32, Kind.Int32, rest, With(seen, n, Plain(Int(x))))
  {
    var b := [8 * n, x] + rest;
    assert b == [8 * n] + ([x] + rest);
    ByteRead(8 * n, [x] + rest);
    ByteRead(x, rest);
    assert FromWord(Kind.Int32, x) == Int(x);
    assert ReadField(sch, Kind.Int32, 8 * n, [x] + rest) == Some(Got(Plain(Int(x)), 1));
  }

  // In a message: the pair 1, 5 enters the map as 16, 0.
  lemma WrongKey(sch: Schema, t: MessageType, f: Field, m: map<string, Value>)
    requires IsFieldOf(t, f) && f.shape == MapOf(Kind.Int32, Kind.Int32)
    ensures MeantPair(sch, Kind.Int32, Kind.Int32, STRAYED, NOTHING) ==
            ReadPair(sch, Kind.Int32, Kind.Int32, ENTRY, NOTHING)
    ensures DecodeMessage(sch, t, TagBytes(f.number, 2) + Delimited(ENTRY), m) ==
            Some(m[f.name := Assoc(AssocAt(m, f.name)[Int(1) := Plain(Int(5))])])
    ensures DecodeMessage(sch, t, TagBytes(f.number, 2) + Delimited(STRAYED), m) ==
            Some(m[f.name := Assoc(AssocAt(m, f.name)[Int(16) := Plain(Int(0))])])
  {
    StrayedIsMeant(sch);
    EntryRead(sch);
    StrayedRead(sch);
    LastPair(sch, t, f, ENTRY, Seen(Some(Plain(Int(1))), Some(Plain(Int(5)))), m);
    LastPair(sch, t, f, STRAYED, Seen(Some(Plain(Int(16))), None), m);
  }

  lemma LastPair(sch: Schema, t: MessageType, f: Field, b: seq<byte>, seen: Seen, m: map<string, Value>)
    requires IsFieldOf(t, f) && f.shape.MapOf? && |b| < SIZE_LIMIT
    requires ReadPair(sch, f.shape.key, f.shape.value, b, NOTHING) == Some(seen)
    ensures DecodeMessage(sch, t, TagBytes(f.number, 2) + Delimited(b), m) ==
            Some(m[f.name := Assoc(AddPair(AssocAt(m, f.name), f.shape.key, f.shape.value, seen))])
  {
    OnePair(sch, t, f, b, seen, [], m);
    assert TagBytes(f.number, 2) + Delimited(b) + [] == TagBytes(f.number, 2) + Delimited(b);
    DecodeIsLocal([], 10);
  }
}
