/** What the encoder writes needs no leniency: it is a message by the grammar, so the strict decoder takes it
    and returns the same table.
 */
module Encoded {
  import opened Common
  import opened Words
  import opened Varint
  import opened Wire
  import opened Message
  import opened Strict

  // ---- Joining ----

  lemma FieldInFront(sch: Schema, t: MessageType, a: seq<byte>, b: seq<byte>, n: nat, k: nat)
    requires FieldAt(sch, t, a, n, k)
    ensures FieldAt(sch, t, a + b, n, k)
  {
    assert (a + b)[..n] == a[..n] && (a + b)[n..n + k] == a[n..n + k];
  }

  lemma TakenApart(sch: Schema, t: MessageType, b: seq<byte>) returns (n: nat, k: nat)
    requires IsMessage(sch, t, b) && b != []
    ensures FieldAt(sch, t, b, n, k) && IsMessage(sch, t, b[n + k..])
  {
    n, k :| FieldAt(sch, t, b, n, k) && IsMessage(sch, t, b[n + k..]);
  }

  lemma PutTogether(sch: Schema, t: MessageType, b: seq<byte>, n: nat, k: nat, rest: seq<byte>)
    requires FieldAt(sch, t, b, n, k) && n + k <= |b| && b[n + k..] == rest && IsMessage(sch, t, rest)
    ensures IsMessage(sch, t, b)
  {
  }

  lemma {:induction false} MessagesJoin(sch: Schema, t: MessageType, a: seq<byte>, b: seq<byte>)
    requires IsMessage(sch, t, a) && IsMessage(sch, t, b)
    ensures IsMessage(sch, t, a + b)
    decreases |a|
  {
    if a == [] {
      assert [] + b == b;
    } else {
      var n, k := TakenApart(sch, t, a);
      var rest := MessageRest(sch, t, a, n, k);
      MessagesJoin(sch, t, rest, b);
      MessageJoins(sch, t, a, b, n, k, rest);
    }
  }

  lemma MessageRest(sch: Schema, t: MessageType, a: seq<byte>, n: nat, k: nat) returns (rest: seq<byte>)
    requires FieldAt(sch, t, a, n, k) && IsMessage(sch, t, a[n + k..])
    ensures n + k <= |a| && rest == a[n + k..] && |rest| < |a| && IsMessage(sch, t, rest)
  {
    rest := a[n + k..];
  }

  lemma MessageJoins(sch: Schema, t: MessageType, a: seq<byte>, b: seq<byte>, n: nat, k: nat, rest: seq<byte>)
    requires FieldAt(sch, t, a, n, k) && n + k <= |a| && rest == a[n + k..] && IsMessage(sch, t, rest + b)
    ensures IsMessage(sch, t, a + b)
  {
    FieldInFront(sch, t, a, b, n, k);
    assert (a + b)[n + k..] == rest + b;
    PutTogether(sch, t, a + b, n, k, rest + b);
  }

  lemma HalfInFront(sch: Schema, key: Kind, value: Kind, a: seq<byte>, b: seq<byte>, n: nat, k: nat)
    requires HalfAt(sch, key, value, a, n, k)
    ensures HalfAt(sch, key, value, a + b, n, k)
  {
    assert (a + b)[..n] == a[..n] && (a + b)[n..n + k] == a[n..n + k];
  }

  lemma EntryApart(sch: Schema, key: Kind, value: Kind, b: seq<byte>) returns (n: nat, k: nat)
    requires IsEntry(sch, key, value, b) && b != []
    ensures HalfAt(sch, key, value, b, n, k) && IsEntry(sch, key, value, b[n + k..])
  {
    n, k :| HalfAt(sch, key, value, b, n, k) && IsEntry(sch, key, value, b[n + k..]);
  }

  lemma EntryTogether(sch: Schema, key: Kind, value: Kind, b: seq<byte>, n: nat, k: nat, rest: seq<byte>)
    requires HalfAt(sch, key, value, b, n, k) && n + k <= |b| && b[n + k..] == rest && IsEntry(sch, key, value, rest)
    ensures IsEntry(sch, key, value, b)
  {
  }

  lemma {:induction false} EntriesJoin(sch: Schema, key: Kind, value: Kind, a: seq<byte>, b: seq<byte>)
    requires IsEntry(sch, key, value, a) && IsEntry(sch, key, value, b)
    ensures IsEntry(sch, key, value, a + b)
    decreases |a|
  {
    if a == [] {
      assert [] + b == b;
    } else {
      var n, k := EntryApart(sch, key, value, a);
      var rest := EntryRest(sch, key, value, a, n, k);
      EntriesJoin(sch, key, value, rest, b);
      EntryJoins(sch, key, value, a, b, n, k, rest);
    }
  }

  lemma EntryRest(sch: Schema, key: Kind, value: Kind, a: seq<byte>, n: nat, k: nat) returns (rest: seq<byte>)
    requires HalfAt(sch, key, value, a, n, k) && IsEntry(sch, key, value, a[n + k..])
    ensures n + k <= |a| && rest == a[n + k..] && |rest| < |a| && IsEntry(sch, key, value, rest)
  {
    rest := a[n + k..];
  }

  lemma EntryJoins(sch: Schema, key: Kind, value: Kind, a: seq<byte>, b: seq<byte>, n: nat, k: nat, rest: seq<byte>)
    requires HalfAt(sch, key, value, a, n, k) && n + k <= |a| && rest == a[n + k..]
    requires IsEntry(sch, key, value, rest + b)
    ensures IsEntry(sch, key, value, a + b)
  {
    HalfInFront(sch, key, value, a, b, n, k);
    assert (a + b)[n + k..] == rest + b;
    EntryTogether(sch, key, value, a + b, n, k, rest + b);
  }

  // ---- One field ----

  lemma TagIsVarint(number: nat, wire: nat)
    requires 0 < number < 0x2000_0000 && wire < 8
    ensures IsVarint(TagBytes(number, wire)) && TagOf(TagBytes(number, wire)) == Tag(number, wire)
    ensures Number(Tag(number, wire)) == number && Tag(number, wire) % 8 == wire && TagBytes(number, wire) != []
  {
    TagRead(number, wire, []);
    assert TagBytes(number, wire) + [] == TagBytes(number, wire);
  }

  lemma TwoParts(a: seq<byte>, v: seq<byte>)
    ensures (a + v)[..|a|] == a && (a + v)[|a|..|a| + |v|] == v && (a + v)[|a| + |v|..] == []
  {
  }

  // A tag and its value are a message.
  lemma OneField(sch: Schema, t: MessageType, f: Field, wire: nat, v: seq<byte>)
    requires IsFieldOf(t, f) && wire < 8 && v != []
    requires IsValue(v, Layout(t, Tag(f.number, wire))) && FieldOk(sch, f, v)
    ensures IsMessage(sch, t, TagBytes(f.number, wire) + v)
  {
    var a := TagBytes(f.number, wire);
    TwoParts(a, v);
    OneFieldAt(sch, t, f, wire, a, v);
    PutTogether(sch, t, a + v, |a|, |v|, []);
  }

  lemma OneFieldAt(sch: Schema, t: MessageType, f: Field, wire: nat, a: seq<byte>, v: seq<byte>)
    requires IsFieldOf(t, f) && wire < 8 && v != [] && a == TagBytes(f.number, wire)
    requires IsValue(v, Layout(t, Tag(f.number, wire))) && FieldOk(sch, f, v)
    ensures FieldAt(sch, t, a + v, |a|, |v|)
  {
    TagIsVarint(f.number, wire);
    TwoParts(a, v);
  }

  lemma OneHalf(sch: Schema, key: Kind, value: Kind, n: nat, v: seq<byte>)
    requires 1 <= n <= 2 && v != []
    requires IsValue(v, Tag(n, WireOf(HalfKind(key, value, n)))) && ValueOk(sch, HalfKind(key, value, n), v)
    ensures IsEntry(sch, key, value, TagBytes(n, WireOf(HalfKind(key, value, n))) + v)
  {
    var wire := WireOf(HalfKind(key, value, n));
    TagIsVarint(n, wire);
    var a := TagBytes(n, wire);
    var b := a + v;
    TwoParts(a, v);
    EntryTogether(sch, key, value, b, |a|, |v|, []);
  }

  lemma RecordIsValue(b: seq<byte>, tag: nat)
    requires |b| < SIZE_LIMIT && tag % 8 == 2
    ensures IsValue(Delimited(b), tag) && Delimited(b) != []
    ensures ReadDelimited(Delimited(b)) == Some(Payload(b, |Delimited(b)|))
  {
    DelimitedRoundTrip(b, []);
    assert Delimited(b) + [] == Delimited(b);
    RecordAlone(Delimited(b));
    ValueExtent(Delimited(b), tag, |Delimited(b)|);
    assert Delimited(b)[..|Delimited(b)|] == Delimited(b);
  }

  // The bytes of a value are a value of its kind's wire type, ...
  lemma BytesAreValue(sch: Schema, k: Kind, v: Lua, tag: nat)
    requires GoodSchema(sch) && Fits(sch, k, v) && tag % 8 == WireOf(k)
    ensures FieldBytes(sch, k, v) != [] && IsValue(FieldBytes(sch, k, v), tag)
  {
    var b := FieldBytes(sch, k, v);
    ValueRoundTrip(sch, k, v, []);
    assert b + [] == b;
    ValueIsExtent(sch, k, tag, b);
    ValueExtent(b, tag, |b|);
    assert b[..|b|] == b;
  }

  // ... and a message inside is a message again.
  lemma {:induction false} BytesAreOk(sch: Schema, k: Kind, v: Lua)
    requires GoodSchema(sch) && Fits(sch, k, v)
    ensures ValueOk(sch, k, FieldBytes(sch, k, v))
    decreases v, 0
  {
    if k.Msg? {
      var m := EncodeMessage(sch, sch[k.typeName], v.entries);
      RecordIsValue(m, 2);
      EncodedIsMessage(sch, sch[k.typeName], v.entries);
    }
  }

  lemma {:induction false} TaggedIsMessage(sch: Schema, t: MessageType, f: Field, v: Lua, elide: bool)
    requires GoodSchema(sch) && IsFieldOf(t, f) && !f.shape.MapOf? && Fits(sch, f.kind, v)
    ensures IsMessage(sch, t, TagField(sch, f.number, f.kind, v, elide))
    decreases v, 1
  {
    if !(elide && v.Leaf? && IsZero(f.kind, v.scalar)) {
      TagIsVarint(f.number, WireOf(f.kind));
      BytesAreValue(sch, f.kind, v, Tag(f.number, WireOf(f.kind)));
      BytesAreOk(sch, f.kind, v);
      OneField(sch, t, f, WireOf(f.kind), FieldBytes(sch, f.kind, v));
    }
  }

  lemma {:induction false} ItemsAreMessages(sch: Schema, t: MessageType, f: Field, items: seq<Lua>)
    requires GoodSchema(sch) && IsFieldOf(t, f) && !f.shape.MapOf? && FitsItems(sch, f.kind, items)
    ensures IsMessage(sch, t, EncodeItems(sch, f, items))
    decreases items, 2
  {
    if items != [] {
      RestItemsFit(sch, f.kind, items);
      TaggedIsMessage(sch, t, f, items[0], false);
      ItemsAreMessages(sch, t, f, items[1..]);
      MessagesJoin(sch, t, TagField(sch, f.number, f.kind, items[0], false), EncodeItems(sch, f, items[1..]));
    }
  }

  lemma PackedIsMessage(sch: Schema, t: MessageType, f: Field, items: seq<Lua>)
    requires IsFieldOf(t, f) && f.shape == Packed && |EncodePacked(sch, f.kind, items)| < SIZE_LIMIT
    ensures IsMessage(sch, t, TagBytes(f.number, 2) + Delimited(EncodePacked(sch, f.kind, items)))
  {
    TagIsVarint(f.number, 2);
    RecordIsValue(EncodePacked(sch, f.kind, items), Tag(f.number, 2));
    OneField(sch, t, f, 2, Delimited(EncodePacked(sch, f.kind, items)));
  }

  lemma {:induction false} HalfIsEntry(sch: Schema, key: Kind, value: Kind, n: nat, v: Lua)
    requires GoodSchema(sch) && 1 <= n <= 2 && Fits(sch, HalfKind(key, value, n), v)
    ensures IsEntry(sch, key, value, TagField(sch, n, HalfKind(key, value, n), v, true))
    decreases v, 1
  {
    var k := HalfKind(key, value, n);
    if !(v.Leaf? && IsZero(k, v.scalar)) {
      TagIsVarint(n, WireOf(k));
      BytesAreValue(sch, k, v, Tag(n, WireOf(k)));
      BytesAreOk(sch, k, v);
      OneHalf(sch, key, value, n, FieldBytes(sch, k, v));
    }
  }

  lemma {:induction false} PairIsMessage(sch: Schema, t: MessageType, f: Field, p: Pair)
    requires GoodSchema(sch) && IsFieldOf(t, f) && f.shape.MapOf? && FitsPair(sch, f, p)
    ensures IsMessage(sch, t, TagBytes(f.number, 2) + Delimited(PairBytes(sch, f, p)))
    decreases p, 2
  {
    HalfIsEntry(sch, f.shape.key, f.shape.value, 1, p.key);
    HalfIsEntry(sch, f.shape.key, f.shape.value, 2, p.value);
    EntriesJoin(sch, f.shape.key, f.shape.value, TagField(sch, 1, f.shape.key, p.key, true),
                TagField(sch, 2, f.shape.value, p.value, true));
    TagIsVarint(f.number, 2);
    RecordIsValue(PairBytes(sch, f, p), 2);
    OneField(sch, t, f, 2, Delimited(PairBytes(sch, f, p)));
  }

  lemma {:induction false} PairsAreMessages(sch: Schema, t: MessageType, f: Field, pairs: seq<Pair>)
    requires GoodSchema(sch) && IsFieldOf(t, f) && f.shape.MapOf?
    requires forall i | 0 <= i < |pairs| :: FitsPair(sch, f, pairs[i])
    ensures IsMessage(sch, t, EncodePairs(sch, f, pairs))
    decreases pairs, 3
  {
    if pairs != [] {
      assert forall i | 0 <= i < |pairs| - 1 :: pairs[1..][i] == pairs[i + 1];
      PairIsMessage(sch, t, f, pairs[0]);
      PairsAreMessages(sch, t, f, pairs[1..]);
      MessagesJoin(sch, t, TagBytes(f.number, 2) + Delimited(PairBytes(sch, f, pairs[0])),
                   EncodePairs(sch, f, pairs[1..]));
    }
  }

  lemma {:induction false} EntryIsMessage(sch: Schema, t: MessageType, e: Entry)
    requires GoodSchema(sch) && GoodType(t) && FitsEntry(sch, t, e)
    ensures IsMessage(sch, t, EncodeEntry(sch, t, e))
    decreases e, 4
  {
    if e.name in t.byName {
      var f := t.byName[e.name];
      match f.shape {
        case Single => TaggedIsMessage(sch, t, f, e.value, t.proto3 && !f.inOneof);
        case Repeated => ItemsAreMessages(sch, t, f, e.value.items);
        case Packed => PackedIsMessage(sch, t, f, e.value.items);
        case MapOf(_, _) => PairsAreMessages(sch, t, f, e.value.pairs);
      }
    }
  }

  /** Whatever the encoder writes is a message. */
  lemma {:induction false} EncodedIsMessage(sch: Schema, t: MessageType, entries: seq<Entry>)
    requires GoodSchema(sch) && GoodType(t) && FitsMessage(sch, t, entries)
    ensures IsMessage(sch, t, EncodeMessage(sch, t, entries))
    decreases entries, 0
  {
    if entries != [] {
      RestFits(sch, t, entries);
      EntryIsMessage(sch, t, entries[0]);
      EncodedIsMessage(sch, t, entries[1..]);
      MessagesJoin(sch, t, EncodeEntry(sch, t, entries[0]), EncodeMessage(sch, t, entries[1..]));
    }
  }

  /** The strict decoder makes the same of it as the decoder. */
  lemma StrictReadsEncoded(sch: Schema, t: MessageType, entries: seq<Entry>) returns (m: map<string, Value>)
    requires GoodSchema(sch) && GoodType(t) && FitsMessage(sch, t, entries)
    ensures StrictMessage(sch, t, EncodeMessage(sch, t, entries), Defaults(t)) == Some(m)
    ensures DecodeMessage(sch, t, EncodeMessage(sch, t, entries), Defaults(t)) == Some(m)
  {
    m := DecodeEncoded(sch, t, entries);
    EncodedIsMessage(sch, t, entries);
    MessageIsStrict(sch, t, EncodeMessage(sch, t, entries), Defaults(t));
  }
}
