/** What the decoder lets pass. It goes on after a field that it cannot skip, and takes bytes that are no
    tag for the end of a message or of a map entry. `StrictMessage` is the same decoder with errors in
    these places, and `IsMessage` says of the bytes alone when the two agree.
 */
module Strict {
  import opened Common
  import opened Words
  import opened Varint
  import opened Wire
  import opened Message

  // ---- The strict decoder ----

  function StrictValue(sch: Schema, k: Kind, b: seq<byte>): (r: Option<Got<Value>>)
    ensures r.Some? ==> 0 < r.value.size <= |b|
    decreases |b|, 0
  {
    match k
    case Msg(n) =>
      (match ReadDelimited(b)
       case None => None
       case Some(p) =>
         if n !in sch then None
         else
           match StrictMessage(sch, sch[n], p.bytes, Defaults(sch[n]))
           case None => None
           case Some(m) => Some(Got(Rec(m), p.size)))
    case _ => ReadValue(sch, k, b)
  }

  function StrictPair(sch: Schema, key: Kind, value: Kind, b: seq<byte>, seen: Seen): Option<Seen>
    decreases |b|, 2
  {
    DecodeIsLocal(b, 10);
    match Decode(b, 10)
    case None => if b == [] then Some(seen) else None
    case Some(r) =>
      var tag := U32(r.value);
      var rest := b[r.size..];
      if Number(tag) != 1 && Number(tag) != 2 then StrictPair(sch, key, value, rest, seen)
      else if tag % 8 != WireOf(HalfKind(key, value, Number(tag))) then None
      else
        match StrictValue(sch, HalfKind(key, value, Number(tag)), rest)
        case None => None
        case Some(v) => StrictPair(sch, key, value, rest[v.size..], With(seen, Number(tag), v.value))
  }

  function StrictField(sch: Schema, f: Field, tag: nat, b: seq<byte>, m: map<string, Value>):
    (r: Option<Got<map<string, Value>>>)
    ensures r.Some? ==> 0 < r.value.size <= |b|
    decreases |b|, 3
  {
    match f.shape
    case MapOf(key, value) =>
      (match ReadDelimited(b)
       case None => None
       case Some(p) =>
         match StrictPair(sch, key, value, p.bytes, Seen(None, None))
         case None => None
         case Some(seen) =>
           Some(Got(m[f.name := Assoc(AddPair(AssocAt(m, f.name), key, value, seen))], p.size)))
    case _ =>
      if !f.kind.Msg? then DecodeField(sch, f, tag, b, m)
      else if tag % 8 != 2 then None
      else
        match StrictValue(sch, f.kind, b)
        case None => None
        case Some(v) =>
          var x := if f.shape == Single then v.value else Arr(ArrayAt(m, f.name) + [v.value]);
          Some(Got(m[f.name := x], v.size))
  }

  function StrictMessage(sch: Schema, t: MessageType, b: seq<byte>, m: map<string, Value>): Option<map<string, Value>>
    decreases |b|, 4
  {
    DecodeIsLocal(b, 10);
    match Decode(b, 10)
    case None => if b == [] then Some(m) else None
    case Some(r) =>
      var tag := U32(r.value);
      var rest := b[r.size..];
      if Number(tag) !in t.byNumber then
        if Skip(rest, tag) == 0 then None else StrictMessage(sch, t, rest[Skip(rest, tag)..], m)
      else
        match StrictField(sch, t.byNumber[Number(tag)], tag, rest, m)
        case None => None
        case Some(g) => StrictMessage(sch, t, rest[g.size..], g.value)
  }

  // ---- What the bytes should be ----

  // The bytes are one value of the tag's wire type, with groups nested to any depth.
  ghost predicate IsValue(v: seq<byte>, tag: nat) {
    exists w :: WellFormed(w, tag) && Flat(w) == v
  }

  // A map field is read as a record, whatever wire type its tag has.
  function Layout(t: MessageType, tag: nat): nat {
    if Number(tag) in t.byNumber && t.byNumber[Number(tag)].shape.MapOf? then 2 else tag
  }

  // A message: fields up to the last byte.
  ghost predicate IsMessage(sch: Schema, t: MessageType, b: seq<byte>)
    decreases |b|, 4
  {
    b == [] || exists n: nat, k: nat :: FieldAt(sch, t, b, n, k) && IsMessage(sch, t, b[n + k..])
  }

  // b starts with a field: a tag of n bytes and a value of k bytes.
  ghost predicate FieldAt(sch: Schema, t: MessageType, b: seq<byte>, n: nat, k: nat)
    decreases |b|, 3
  {
    && 0 < n && 0 < k && n + k <= |b| && IsVarint(b[..n])
    && var tag := TagOf(b[..n]);
       && IsValue(b[n..n + k], Layout(t, tag))
       && (Number(tag) in t.byNumber ==> FieldOk(sch, t.byNumber[Number(tag)], b[n..n + k]))
  }

  // What is inside a value of a known field is in order, too.
  ghost predicate FieldOk(sch: Schema, f: Field, v: seq<byte>)
    decreases |v|, 2
  {
    match f.shape
    case MapOf(key, value) => ReadDelimited(v).Some? && IsEntry(sch, key, value, ReadDelimited(v).value.bytes)
    case _ => ValueOk(sch, f.kind, v)
  }

  ghost predicate ValueOk(sch: Schema, k: Kind, v: seq<byte>)
    decreases |v|, 1
  {
    k.Msg? && k.typeName in sch ==>
      ReadDelimited(v).Some? && IsMessage(sch, sch[k.typeName], ReadDelimited(v).value.bytes)
  }

  // A map entry as the loop over it reads it: keys, values, and tags that are passed over alone.
  ghost predicate IsEntry(sch: Schema, key: Kind, value: Kind, b: seq<byte>)
    decreases |b|, 4
  {
    b == [] || exists n: nat, k: nat :: HalfAt(sch, key, value, b, n, k) && IsEntry(sch, key, value, b[n + k..])
  }

  ghost predicate HalfAt(sch: Schema, key: Kind, value: Kind, b: seq<byte>, n: nat, k: nat)
    decreases |b|, 3
  {
    && 0 < n && n + k <= |b| && IsVarint(b[..n])
    && var tag := TagOf(b[..n]);
       if Number(tag) != 1 && Number(tag) != 2 then k == 0
       else 0 < k && IsValue(b[n..n + k], tag) && ValueOk(sch, HalfKind(key, value, Number(tag)), b[n..n + k])
  }

  // ---- There is only one way to take the bytes apart ----

  lemma TagExtent(b: seq<byte>, n: nat)
    requires n <= |b|
    ensures IsVarint(b[..n]) <==> Decode(b, 10).Some? && Decode(b, 10).value.size == n
    ensures IsVarint(b[..n]) ==> TagOf(b[..n]) == U32(Decode(b, 10).value.value)
  {
    if IsVarint(b[..n]) {
      VarintComplete(b[..n], b[n..]);
      assert b[..n] + b[n..] == b;
    } else if Decode(b, 10).Some? {
      VarintSound(b);
    }
  }

  lemma ValueExtent(b: seq<byte>, tag: nat, k: nat)
    requires 0 < k <= |b|
    ensures IsValue(b[..k], tag) <==> Skip(b, tag) == k
  {
    if IsValue(b[..k], tag) {
      var w :| WellFormed(w, tag) && Flat(w) == b[..k];
      SkipIsComplete(w, tag, b[k..]);
      assert b[..k] + b[k..] == b;
    } else if Skip(b, tag) == k {
      var w := SkipIsSound(b, tag);
    }
  }

  // The front of a message, by what the code skips.
  ghost predicate FrontOk(sch: Schema, t: MessageType, b: seq<byte>, n: nat, k: nat) {
    && Decode(b, 10).Some? && n == Decode(b, 10).value.size <= |b| && 0 < n
    && var tag := U32(Decode(b, 10).value.value);
       && 0 < k == Skip(b[n..], Layout(t, tag))
       && (Number(tag) in t.byNumber ==> FieldOk(sch, t.byNumber[Number(tag)], b[n..][..k]))
  }

  lemma ExtentOfField(t: MessageType, b: seq<byte>, n: nat, k: nat)
    requires 0 < n && 0 < k && n + k <= |b|
    ensures b[n..][..k] == b[n..n + k]
    ensures IsVarint(b[..n]) && IsValue(b[n..n + k], Layout(t, TagOf(b[..n]))) <==>
            Decode(b, 10).Some? && n == Decode(b, 10).value.size &&
              k == Skip(b[n..], Layout(t, U32(Decode(b, 10).value.value)))
    ensures IsVarint(b[..n]) ==> Decode(b, 10).Some? && TagOf(b[..n]) == U32(Decode(b, 10).value.value)
  {
    TagExtent(b, n);
    assert b[n..][..k] == b[n..n + k];
    if IsVarint(b[..n]) {
      ValueExtent(b[n..], Layout(t, TagOf(b[..n])), k);
    }
  }

  lemma FieldIsFront(sch: Schema, t: MessageType, b: seq<byte>, n: nat, k: nat)
    requires FieldAt(sch, t, b, n, k)
    ensures FrontOk(sch, t, b, n, k)
  {
    ExtentOfField(t, b, n, k);
  }

  lemma FrontIsField(sch: Schema, t: MessageType, b: seq<byte>, n: nat, k: nat)
    requires FrontOk(sch, t, b, n, k)
    ensures FieldAt(sch, t, b, n, k)
  {
    ExtentOfField(t, b, n, k);
  }

  lemma FirstField(sch: Schema, t: MessageType, b: seq<byte>) returns (n: nat, k: nat)
    requires IsMessage(sch, t, b) && b != []
    ensures FrontOk(sch, t, b, n, k) && IsMessage(sch, t, b[n..][k..])
  {
    n, k :| FieldAt(sch, t, b, n, k) && IsMessage(sch, t, b[n + k..]);
    FieldIsFront(sch, t, b, n, k);
    assert b[n..][k..] == b[n + k..];
  }

  lemma MessageFront(sch: Schema, t: MessageType, b: seq<byte>, n: nat, k: nat)
    requires Decode(b, 10).Some? && n == Decode(b, 10).value.size && n <= |b|
    requires k == Skip(b[n..], Layout(t, U32(Decode(b, 10).value.value)))
    ensures IsMessage(sch, t, b) <==> FrontOk(sch, t, b, n, k) && IsMessage(sch, t, b[n..][k..])
  {
    DecodeIsLocal(b, 10);
    if IsMessage(sch, t, b) {
      var n', k' := FirstField(sch, t, b);
    } else if FrontOk(sch, t, b, n, k) {
      FrontIsField(sch, t, b, n, k);
      assert b[n..][k..] == b[n + k..];
    }
  }

  // The same for an entry.
  ghost predicate HalfOk(sch: Schema, key: Kind, value: Kind, b: seq<byte>, n: nat, k: nat) {
    && Decode(b, 10).Some? && n == Decode(b, 10).value.size <= |b| && 0 < n
    && var tag := U32(Decode(b, 10).value.value);
       if Number(tag) != 1 && Number(tag) != 2 then k == 0
       else 0 < k == Skip(b[n..], tag) && ValueOk(sch, HalfKind(key, value, Number(tag)), b[n..][..k])
  }

  lemma HalfIsOk(sch: Schema, key: Kind, value: Kind, b: seq<byte>, n: nat, k: nat)
    requires HalfAt(sch, key, value, b, n, k)
    ensures HalfOk(sch, key, value, b, n, k) && n + k <= |b|
  {
    TagExtent(b, n);
    OneHalfExtent(sch, key, value, b, n, k, TagOf(b[..n]));
  }

  lemma HalfIsAt(sch: Schema, key: Kind, value: Kind, b: seq<byte>, n: nat, k: nat)
    requires HalfOk(sch, key, value, b, n, k) && n + k <= |b|
    ensures HalfAt(sch, key, value, b, n, k)
  {
    TagExtent(b, n);
    OneHalfExtent(sch, key, value, b, n, k, TagOf(b[..n]));
  }

  lemma OneHalfExtent(sch: Schema, key: Kind, value: Kind, b: seq<byte>, n: nat, k: nat, tag: nat)
    requires n + k <= |b|
    ensures 0 < k && IsValue(b[n..n + k], tag) && ValueOk(sch, HalfKind(key, value, Number(tag)), b[n..n + k]) <==>
            0 < k == Skip(b[n..], tag) && ValueOk(sch, HalfKind(key, value, Number(tag)), b[n..][..k])
  {
    assert b[n..][..k] == b[n..n + k];
    if 0 < k {
      ValueExtent(b[n..], tag, k);
    }
  }

  lemma FirstHalf(sch: Schema, key: Kind, value: Kind, b: seq<byte>) returns (n: nat, k: nat)
    requires IsEntry(sch, key, value, b) && b != []
    ensures HalfOk(sch, key, value, b, n, k) && k <= |b| - n && IsEntry(sch, key, value, b[n..][k..])
  {
    n, k :| HalfAt(sch, key, value, b, n, k) && IsEntry(sch, key, value, b[n + k..]);
    HalfIsOk(sch, key, value, b, n, k);
    assert b[n..][k..] == b[n + k..];
  }

  ghost predicate IsFront(b: seq<byte>, n: nat, k: nat) {
    && Decode(b, 10).Some? && n == Decode(b, 10).value.size && n + k <= |b|
    && var tag := U32(Decode(b, 10).value.value);
       k == if Number(tag) != 1 && Number(tag) != 2 then 0 else Skip(b[n..], tag)
  }

  lemma EntryGoesOn(sch: Schema, key: Kind, value: Kind, b: seq<byte>, n: nat, k: nat)
    requires IsFront(b, n, k) && IsEntry(sch, key, value, b)
    ensures HalfOk(sch, key, value, b, n, k) && IsEntry(sch, key, value, b[n..][k..])
  {
    DecodeIsLocal(b, 10);
    var n', k' := FirstHalf(sch, key, value, b);
    assert n' == n && k' == k;
  }

  lemma EntryStarts(sch: Schema, key: Kind, value: Kind, b: seq<byte>, n: nat, k: nat)
    requires IsFront(b, n, k) && HalfOk(sch, key, value, b, n, k) && IsEntry(sch, key, value, b[n..][k..])
    ensures IsEntry(sch, key, value, b)
  {
    HalfIsAt(sch, key, value, b, n, k);
    assert b[n..][k..] == b[n + k..];
  }

  lemma NoTag(sch: Schema, t: MessageType, key: Kind, value: Kind, b: seq<byte>)
    requires Decode(b, 10) == None && b != []
    ensures !IsMessage(sch, t, b) && !IsEntry(sch, key, value, b)
  {
    if IsMessage(sch, t, b) {
      var n, k := FirstField(sch, t, b);
    }
    if IsEntry(sch, key, value, b) {
      var n, k := FirstHalf(sch, key, value, b);
    }
  }

  // ---- The strict decoder takes exactly the messages ----

  // A value that was read has the extent that a skip would have.
  lemma ValueIsExtent(sch: Schema, k: Kind, tag: nat, b: seq<byte>)
    requires ReadField(sch, k, tag, b).Some?
    ensures ReadField(sch, k, tag, b).value.size == Skip(b, tag)
  {
    if WireOf(k) == 0 {
      VarintExtent(b);
    }
  }

  lemma VarintExtent(b: seq<byte>)
    requires Decode(b, 10).Some?
    ensures SkipVarintSize(b) == Decode(b, 10).value.size
  {
    VarintSound(b);
    var n := Decode(b, 10).value.size;
    ReadIsSkipped(b, 10);
  }

  lemma {:induction false} ReadIsSkipped(b: seq<byte>, limit: nat)
    requires Decode(b, limit).Some?
    ensures SkipVarintSize(b) == Decode(b, limit).value.size > 0
  {
    if b[0] >= 0x80 {
      ReadIsSkipped(b[1..], limit - 1);
    }
  }

  // A record is what its first bytes say.
  lemma RecordAlone(b: seq<byte>)
    requires ReadDelimited(b).Some?
    ensures var p := ReadDelimited(b).value;
            ReadDelimited(b[..p.size]) == Some(p) && p.size == SkipBytesSize(b) > 0
  {
    DecodeIsLocal(b, 10);
    var p, n := ReadDelimited(b).value, Decode(b, 10).value.size;
    assert b[..p.size][..n] == b[..n];
    DecodeIgnoresRest(b, b[..p.size], 10);
    assert b[..p.size][n..p.size] == b[n..p.size];
  }

  lemma {:induction false} ValueIsStrict(sch: Schema, k: Kind, b: seq<byte>)
    requires GoodSchema(sch)
    ensures StrictValue(sch, k, b) ==
            match ReadValue(sch, k, b)
            case None => None
            case Some(g) => if ValueOk(sch, k, b[..g.size]) then Some(g) else None
    decreases |b|, 0
  {
    if k.Msg? && ReadDelimited(b).Some? && k.typeName in sch {
      var t := sch[k.typeName];
      RecordAlone(b);
      MessageIsStrict(sch, t, ReadDelimited(b).value.bytes, Defaults(t));
    }
  }

  lemma {:induction false} PairIsStrict(sch: Schema, key: Kind, value: Kind, b: seq<byte>, seen: Seen)
    requires GoodSchema(sch)
    ensures StrictPair(sch, key, value, b, seen) ==
            if IsEntry(sch, key, value, b) then ReadPair(sch, key, value, b, seen) else None
    decreases |b|, 4
  {
    if IsEntry(sch, key, value, b) {
      EntryIsTaken(sch, key, value, b, seen);
    } else {
      OtherIsRefused(sch, key, value, b, seen);
    }
  }

  predicate IsHalf(b: seq<byte>) {
    Decode(b, 10).Some? && (Number(U32(Decode(b, 10).value.value)) == 1 || Number(U32(Decode(b, 10).value.value)) == 2)
  }

  lemma {:induction false} EntryIsTaken(sch: Schema, key: Kind, value: Kind, b: seq<byte>, seen: Seen)
    requires GoodSchema(sch) && IsEntry(sch, key, value, b)
    ensures StrictPair(sch, key, value, b, seen) == ReadPair(sch, key, value, b, seen)
    decreases |b|, 3
  {
    if b == [] {
      DecodeIsLocal(b, 10);
    } else {
      if Decode(b, 10) == None {
        NoTag(sch, MessageType(false, map[], map[]), key, value, b);
      }
      if IsHalf(b) {
        HalfIsTaken(sch, key, value, b, seen);
      } else {
        StrayIsTaken(sch, key, value, b, seen);
      }
    }
  }

  // A tag that is passed over.
  lemma StrayStep(sch: Schema, key: Kind, value: Kind, b: seq<byte>, seen: Seen, n: nat)
    requires IsFront(b, n, 0) && !IsHalf(b)
    ensures StrictPair(sch, key, value, b, seen) == StrictPair(sch, key, value, b[n..], seen)
    ensures ReadPair(sch, key, value, b, seen) == ReadPair(sch, key, value, b[n..], seen)
  {
  }

  lemma {:induction false} StrayIsTaken(sch: Schema, key: Kind, value: Kind, b: seq<byte>, seen: Seen)
    requires GoodSchema(sch) && Decode(b, 10).Some? && !IsHalf(b) && IsEntry(sch, key, value, b)
    ensures StrictPair(sch, key, value, b, seen) == ReadPair(sch, key, value, b, seen)
    decreases |b|, 2
  {
    DecodeIsLocal(b, 10);
    var n := Decode(b, 10).value.size;
    EntryGoesOn(sch, key, value, b, n, 0);
    assert b[n..][0..] == b[n..];
    EntryIsTaken(sch, key, value, b[n..], seen);
    StrayStep(sch, key, value, b, seen, n);
  }

  // A turn at a key or a value, by what the value reads as.
  lemma HalfStep(sch: Schema, key: Kind, value: Kind, b: seq<byte>, seen: Seen, n: nat, tag: nat, kind: Kind)
    requires IsHalf(b) && n == Decode(b, 10).value.size <= |b| && tag == U32(Decode(b, 10).value.value)
    requires kind == HalfKind(key, value, Number(tag))
    ensures ReadPair(sch, key, value, b, seen) ==
            match ReadField(sch, kind, tag, b[n..])
            case None => None
            case Some(v) => ReadPair(sch, key, value, b[n..][v.size..], With(seen, Number(tag), v.value))
  {
  }

  lemma StrictHalfStep(sch: Schema, key: Kind, value: Kind, b: seq<byte>, seen: Seen, n: nat, tag: nat, kind: Kind)
    requires IsHalf(b) && n == Decode(b, 10).value.size <= |b| && tag == U32(Decode(b, 10).value.value)
    requires kind == HalfKind(key, value, Number(tag))
    ensures StrictPair(sch, key, value, b, seen) ==
            match if tag % 8 == WireOf(kind) then StrictValue(sch, kind, b[n..]) else None
            case None => None
            case Some(v) => StrictPair(sch, key, value, b[n..][v.size..], With(seen, Number(tag), v.value))
  {
  }

  lemma {:induction false} FilteredValue(sch: Schema, kind: Kind, tag: nat, b: seq<byte>)
    returns (v: Option<Got<Value>>)
    requires GoodSchema(sch)
    ensures v == ReadField(sch, kind, tag, b)
    ensures (if tag % 8 == WireOf(kind) then StrictValue(sch, kind, b) else None) ==
            if v.Some? && ValueOk(sch, kind, b[..v.value.size]) then v else None
    ensures v.Some? ==> 0 < v.value.size == Skip(b, tag)
    decreases |b|, 1
  {
    v := ReadField(sch, kind, tag, b);
    ValueIsStrict(sch, kind, b);
    if v.Some? {
      ValueIsExtent(sch, kind, tag, b);
    }
  }

  // The key or value of n bytes of tag reads as v, and as such in the strict decoder if it is in order.
  ghost predicate Half(sch: Schema, key: Kind, value: Kind, b: seq<byte>, n: nat, tag: nat, v: Got<Value>) {
    && IsHalf(b) && 0 < n == Decode(b, 10).value.size <= |b| && tag == U32(Decode(b, 10).value.value)
    && var kind := HalfKind(key, value, Number(tag));
       && ReadField(sch, kind, tag, b[n..]) == Some(v) && 0 < v.size == Skip(b[n..], tag) <= |b| - n
       && StrictValue(sch, kind, b[n..]) == if ValueOk(sch, kind, b[n..][..v.size]) then Some(v) else None
  }

  lemma {:induction false} FirstValue(sch: Schema, key: Kind, value: Kind, b: seq<byte>, seen: Seen)
    returns (n: nat, tag: nat, v: Option<Got<Value>>)
    requires GoodSchema(sch) && IsHalf(b)
    ensures v == None ==> ReadPair(sch, key, value, b, seen) == None && StrictPair(sch, key, value, b, seen) == None
    ensures v.Some? ==> Half(sch, key, value, b, n, tag, v.value)
    decreases |b|, 1
  {
    DecodeIsLocal(b, 10);
    n, tag := Decode(b, 10).value.size, U32(Decode(b, 10).value.value);
    v := FilteredValue(sch, HalfKind(key, value, Number(tag)), tag, b[n..]);
    if v == None {
      HalfFails(sch, key, value, b, seen, n, tag, HalfKind(key, value, Number(tag)));
    }
  }

  lemma HalfFails(sch: Schema, key: Kind, value: Kind, b: seq<byte>, seen: Seen, n: nat, tag: nat, kind: Kind)
    requires IsHalf(b) && n == Decode(b, 10).value.size <= |b| && tag == U32(Decode(b, 10).value.value)
    requires kind == HalfKind(key, value, Number(tag))
    requires ReadField(sch, kind, tag, b[n..]) == None
    requires tag % 8 == WireOf(kind) ==> StrictValue(sch, kind, b[n..]) == None
    ensures ReadPair(sch, key, value, b, seen) == None && StrictPair(sch, key, value, b, seen) == None
  {
    HalfStep(sch, key, value, b, seen, n, tag, kind);
    StrictHalfStep(sch, key, value, b, seen, n, tag, kind);
  }

  lemma {:induction false} HalfIsTaken(sch: Schema, key: Kind, value: Kind, b: seq<byte>, seen: Seen)
    requires GoodSchema(sch) && IsHalf(b) && IsEntry(sch, key, value, b)
    ensures StrictPair(sch, key, value, b, seen) == ReadPair(sch, key, value, b, seen)
    decreases |b|, 2
  {
    var n, tag, v := FirstValue(sch, key, value, b, seen);
    if v.Some? {
      HalfThenRest(sch, key, value, b, seen, n, tag, v.value);
    }
  }

  lemma {:induction false} HalfThenRest(sch: Schema, key: Kind, value: Kind, b: seq<byte>, seen: Seen, n: nat,
                                        tag: nat, v: Got<Value>)
    requires GoodSchema(sch) && Half(sch, key, value, b, n, tag, v) && IsEntry(sch, key, value, b)
    ensures StrictPair(sch, key, value, b, seen) == ReadPair(sch, key, value, b, seen)
    decreases |b|, 1
  {
    RestIsEntry(sch, key, value, b, n, tag, v);
    EntryIsTaken(sch, key, value, b[n..][v.size..], With(seen, Number(tag), v.value));
    HalfPasses(sch, key, value, b, seen, n, tag, v);
  }

  lemma RestIsEntry(sch: Schema, key: Kind, value: Kind, b: seq<byte>, n: nat, tag: nat, v: Got<Value>)
    requires Half(sch, key, value, b, n, tag, v) && IsEntry(sch, key, value, b) && v.size <= |b| - n
    ensures ValueOk(sch, HalfKind(key, value, Number(tag)), b[n..][..v.size])
    ensures IsEntry(sch, key, value, b[n..][v.size..])
  {
    EntryGoesOn(sch, key, value, b, n, v.size);
  }

  lemma HalfPasses(sch: Schema, key: Kind, value: Kind, b: seq<byte>, seen: Seen, n: nat, tag: nat, v: Got<Value>)
    requires Half(sch, key, value, b, n, tag, v) && v.size <= |b| - n
    requires ValueOk(sch, HalfKind(key, value, Number(tag)), b[n..][..v.size])
    ensures ReadPair(sch, key, value, b, seen) ==
            ReadPair(sch, key, value, b[n..][v.size..], With(seen, Number(tag), v.value))
    ensures StrictPair(sch, key, value, b, seen) ==
            StrictPair(sch, key, value, b[n..][v.size..], With(seen, Number(tag), v.value))
  {
    HalfStep(sch, key, value, b, seen, n, tag, HalfKind(key, value, Number(tag)));
    StrictHalfStep(sch, key, value, b, seen, n, tag, HalfKind(key, value, Number(tag)));
  }

  lemma {:induction false} OtherIsRefused(sch: Schema, key: Kind, value: Kind, b: seq<byte>, seen: Seen)
    requires GoodSchema(sch) && !IsEntry(sch, key, value, b)
    ensures StrictPair(sch, key, value, b, seen) == None
    decreases |b|, 3
  {
    if IsHalf(b) {
      HalfIsRefused(sch, key, value, b, seen);
    } else if Decode(b, 10).Some? {
      StrayIsRefused(sch, key, value, b, seen);
    }
  }

  lemma {:induction false} StrayIsRefused(sch: Schema, key: Kind, value: Kind, b: seq<byte>, seen: Seen)
    requires GoodSchema(sch) && Decode(b, 10).Some? && !IsHalf(b) && !IsEntry(sch, key, value, b)
    ensures StrictPair(sch, key, value, b, seen) == None
    decreases |b|, 2
  {
    DecodeIsLocal(b, 10);
    var n := Decode(b, 10).value.size;
    assert b[n..][0..] == b[n..];
    if IsEntry(sch, key, value, b[n..]) {
      EntryStarts(sch, key, value, b, n, 0);
    }
    OtherIsRefused(sch, key, value, b[n..], seen);
    StrayStep(sch, key, value, b, seen, n);
  }

  lemma {:induction false} HalfIsRefused(sch: Schema, key: Kind, value: Kind, b: seq<byte>, seen: Seen)
    requires GoodSchema(sch) && IsHalf(b) && !IsEntry(sch, key, value, b)
    ensures StrictPair(sch, key, value, b, seen) == None
    decreases |b|, 2
  {
    var n, tag, v := FirstValue(sch, key, value, b, seen);
    if v.Some? {
      StrictHalfStep(sch, key, value, b, seen, n, tag, HalfKind(key, value, Number(tag)));
      if ValueOk(sch, HalfKind(key, value, Number(tag)), b[n..][..v.value.size]) {
        RestIsNoEntry(sch, key, value, b, n, tag, v.value);
        OtherIsRefused(sch, key, value, b[n..][v.value.size..], With(seen, Number(tag), v.value.value));
      }
    }
  }

  lemma RestIsNoEntry(sch: Schema, key: Kind, value: Kind, b: seq<byte>, n: nat, tag: nat, v: Got<Value>)
    requires Half(sch, key, value, b, n, tag, v) && !IsEntry(sch, key, value, b) && v.size <= |b| - n
    requires ValueOk(sch, HalfKind(key, value, Number(tag)), b[n..][..v.size])
    ensures !IsEntry(sch, key, value, b[n..][v.size..])
  {
    if IsEntry(sch, key, value, b[n..][v.size..]) {
      EntryStarts(sch, key, value, b, n, v.size);
    }
  }

  // What a field reads as, and what the strict decoder makes of it.
  ghost predicate Filtered(strict: Option<Got<map<string, Value>>>, read: Option<Got<map<string, Value>>>,
                           sch: Schema, f: Field,
                           b: seq<byte>) {
    match read
    case None => strict == None
    case Some(g) => g.size <= |b| && strict == if FieldOk(sch, f, b[..g.size]) then read else None
  }

  lemma {:induction false} FieldIsStrict(sch: Schema, t: MessageType, f: Field, tag: nat, b: seq<byte>,
                                         m: map<string, Value>)
    requires GoodSchema(sch) && GoodType(t) && Number(tag) in t.byNumber && t.byNumber[Number(tag)] == f
    ensures Filtered(StrictField(sch, f, tag, b, m), DecodeField(sch, f, tag, b, m), sch, f, b)
    ensures match DecodeField(sch, f, tag, b, m)
            case None => true
            case Some(g) => 0 < g.size == Skip(b, Layout(t, tag))
    decreases |b|, 4
  {
    if f.shape.MapOf? {
      MapIsStrict(sch, f, tag, b, m);
    } else if f.kind.Msg? {
      MessageFieldIsStrict(sch, f, tag, b, m);
    } else if DecodeField(sch, f, tag, b, m).Some? {
      ScalarFieldExtent(sch, f, tag, b, m);
    }
  }

  lemma {:induction false} MapIsStrict(sch: Schema, f: Field, tag: nat, b: seq<byte>, m: map<string, Value>)
    requires GoodSchema(sch) && f.shape.MapOf?
    ensures Filtered(StrictField(sch, f, tag, b, m), DecodeField(sch, f, tag, b, m), sch, f, b)
    ensures match DecodeField(sch, f, tag, b, m)
            case None => true
            case Some(g) => 0 < g.size == Skip(b, 2)
    decreases |b|, 3
  {
    if ReadDelimited(b).Some? {
      RecordAlone(b);
      PairIsStrict(sch, f.shape.key, f.shape.value, ReadDelimited(b).value.bytes, Seen(None, None));
    }
  }

  lemma {:induction false} MessageFieldIsStrict(sch: Schema, f: Field, tag: nat, b: seq<byte>, m: map<string, Value>)
    requires GoodSchema(sch) && f.kind.Msg? && (f.shape == Single || f.shape == Repeated)
    ensures Filtered(StrictField(sch, f, tag, b, m), DecodeField(sch, f, tag, b, m), sch, f, b)
    ensures match DecodeField(sch, f, tag, b, m)
            case None => true
            case Some(g) => 0 < g.size == Skip(b, tag)
    decreases |b|, 3
  {
    var v := FilteredValue(sch, f.kind, tag, b);
  }

  lemma ScalarFieldExtent(sch: Schema, f: Field, tag: nat, b: seq<byte>, m: map<string, Value>)
    requires !f.shape.MapOf? && DecodeField(sch, f, tag, b, m).Some?
    ensures 0 < DecodeField(sch, f, tag, b, m).value.size == Skip(b, tag)
  {
    if f.shape == Single || tag % 8 != 2 || (f.shape == Repeated && WireOf(f.kind) == 2) {
      ValueIsExtent(sch, f.kind, tag, b);
    } else {
      RecordAlone(b);
    }
  }

  /** The strict decoder is the decoder, on messages; other bytes it refuses. */
  lemma {:induction false} MessageIsStrict(sch: Schema, t: MessageType, b: seq<byte>, m: map<string, Value>)
    requires GoodSchema(sch) && GoodType(t)
    ensures StrictMessage(sch, t, b, m) == if IsMessage(sch, t, b) then DecodeMessage(sch, t, b, m) else None
    decreases |b|, 5
  {
    DecodeIsLocal(b, 10);
    if Decode(b, 10) == None {
      if b != [] {
        NoTag(sch, t, Kind.Int32, Kind.Int32, b);
      }
    } else if Number(U32(Decode(b, 10).value.value)) in t.byNumber {
      KnownIsStrict(sch, t, b, m);
    } else {
      UnknownIsStrict(sch, t, b, m);
    }
  }

  lemma {:induction false} UnknownIsStrict(sch: Schema, t: MessageType, b: seq<byte>, m: map<string, Value>)
    requires GoodSchema(sch) && GoodType(t) && Decode(b, 10).Some?
    requires Number(U32(Decode(b, 10).value.value)) !in t.byNumber
    ensures StrictMessage(sch, t, b, m) == if IsMessage(sch, t, b) then DecodeMessage(sch, t, b, m) else None
    decreases |b|, 4
  {
    DecodeIsLocal(b, 10);
    var n, tag := Decode(b, 10).value.size, U32(Decode(b, 10).value.value);
    var k := Skip(b[n..], tag);
    MessageFront(sch, t, b, n, k);
    MessageIsStrict(sch, t, b[n..][k..], m);
  }

  lemma {:induction false} KnownIsStrict(sch: Schema, t: MessageType, b: seq<byte>, m: map<string, Value>)
    requires GoodSchema(sch) && GoodType(t) && Decode(b, 10).Some?
    requires Number(U32(Decode(b, 10).value.value)) in t.byNumber
    ensures StrictMessage(sch, t, b, m) == if IsMessage(sch, t, b) then DecodeMessage(sch, t, b, m) else None
    decreases |b|, 4
  {
    DecodeIsLocal(b, 10);
    var n, tag := Decode(b, 10).value.size, U32(Decode(b, 10).value.value);
    var f := t.byNumber[Number(tag)];
    FieldIsStrict(sch, t, f, tag, b[n..], m);
    var g := DecodeField(sch, f, tag, b[n..], m);
    if g.Some? {
      MessageFront(sch, t, b, n, g.value.size);
      MessageIsStrict(sch, t, b[n..][g.value.size..], g.value.value);
    }
  }

  // ---- Where the decoder is too lenient ----

  // Something is wrong at the front of d: there is no tag, or the tag of an unknown field without a value
  // of its wire type, or a known field with something wrong inside.
  ghost predicate Flaw(sch: Schema, t: MessageType, d: seq<byte>) {
    d != [] &&
    match Decode(d, 10)
    case None => true
    case Some(r) =>
      r.size <= |d| &&
      var tag := U32(r.value);
      var rest := d[r.size..];
      if Number(tag) !in t.byNumber then forall k | 0 < k <= |rest| :: !IsValue(rest[..k], tag)
      else !FieldOk(sch, t.byNumber[Number(tag)], rest[..Skip(rest, Layout(t, tag))])
  }

  // The table after a turn of the loop, and the bytes that it took.
  ghost function Turn(sch: Schema, t: MessageType, b: seq<byte>, m: map<string, Value>):
    (r: Option<Got<map<string, Value>>>)
    ensures r.Some? ==> 0 < r.value.size <= |b|
  {
    DecodeIsLocal(b, 10);
    match Decode(b, 10)
    case None => None
    case Some(r) =>
      var tag := U32(r.value);
      var rest := b[r.size..];
      if Number(tag) !in t.byNumber then Some(Got(m, r.size + Skip(rest, tag)))
      else
        match DecodeField(sch, t.byNumber[Number(tag)], tag, rest, m)
        case None => None
        case Some(g) => Some(Got(g.value, r.size + g.size))
  }

  // The loop over the message comes to position `at`.
  ghost predicate ComesTo(sch: Schema, t: MessageType, b: seq<byte>, m: map<string, Value>, at: nat)
    decreases |b|
  {
    at == 0 ||
    match Turn(sch, t, b, m)
    case None => false
    case Some(g) => g.size <= at && ComesTo(sch, t, b[g.size..], g.value, at - g.size)
  }

  ghost predicate FlawAt(sch: Schema, t: MessageType, b: seq<byte>, m: map<string, Value>, at: nat) {
    at <= |b| && ComesTo(sch, t, b, m, at) && Flaw(sch, t, b[at..])
  }

  lemma FieldIsNoFlaw(sch: Schema, t: MessageType, b: seq<byte>, n: nat, k: nat)
    requires FieldAt(sch, t, b, n, k)
    ensures !Flaw(sch, t, b)
  {
    ExtentOfField(t, b, n, k);
  }

  lemma FlawIsNoMessage(sch: Schema, t: MessageType, b: seq<byte>)
    requires Flaw(sch, t, b)
    ensures !IsMessage(sch, t, b)
  {
    if IsMessage(sch, t, b) {
      var n, k := FirstField(sch, t, b);
      FrontIsField(sch, t, b, n, k);
      FieldIsNoFlaw(sch, t, b, n, k);
    }
  }

  // A field that is skipped or read goes on with the rest; one in front of a message may be taken off.
  lemma NoFlawGoesOn(sch: Schema, t: MessageType, b: seq<byte>, n: nat, k: nat)
    requires b != [] && !Flaw(sch, t, b) && Decode(b, 10).Some? && n == Decode(b, 10).value.size <= |b|
    requires k == Skip(b[n..], Layout(t, U32(Decode(b, 10).value.value)))
    requires Number(U32(Decode(b, 10).value.value)) in t.byNumber ==> 0 < k
    ensures IsMessage(sch, t, b) <==> IsMessage(sch, t, b[n..][k..])
  {
    DecodeIsLocal(b, 10);
    var tag := U32(Decode(b, 10).value.value);
    if Number(tag) !in t.byNumber {
      var j :| 0 < j <= |b[n..]| && IsValue(b[n..][..j], tag);
      ValueExtent(b[n..], tag, j);
    }
    MessageFront(sch, t, b, n, k);
  }

  lemma UnknownTurn(sch: Schema, t: MessageType, b: seq<byte>, m: map<string, Value>)
    returns (g: Got<map<string, Value>>)
    requires Decode(b, 10).Some? && Number(U32(Decode(b, 10).value.value)) !in t.byNumber
    requires DecodeMessage(sch, t, b, m).Some?
    ensures Turn(sch, t, b, m) == Some(g) && DecodeMessage(sch, t, b[g.size..], g.value).Some?
  {
    DecodeIsLocal(b, 10);
    var s, tag := Decode(b, 10).value.size, U32(Decode(b, 10).value.value);
    g := Got(m, s + Skip(b[s..], tag));
    assert b[s..][Skip(b[s..], tag)..] == b[g.size..];
  }

  lemma KnownTurn(sch: Schema, t: MessageType, b: seq<byte>, m: map<string, Value>) returns (g: Got<map<string, Value>>)
    requires Decode(b, 10).Some? && Number(U32(Decode(b, 10).value.value)) in t.byNumber
    requires DecodeMessage(sch, t, b, m).Some?
    ensures Turn(sch, t, b, m) == Some(g) && DecodeMessage(sch, t, b[g.size..], g.value).Some?
  {
    DecodeIsLocal(b, 10);
    var s, tag := Decode(b, 10).value.size, U32(Decode(b, 10).value.value);
    var f := DecodeField(sch, t.byNumber[Number(tag)], tag, b[s..], m).value;
    g := Got(f.value, s + f.size);
    assert b[s..][f.size..] == b[g.size..];
  }

  lemma TurnOfMessage(sch: Schema, t: MessageType, b: seq<byte>, m: map<string, Value>, g: Got<map<string, Value>>)
    requires GoodSchema(sch) && GoodType(t) && b != [] && !Flaw(sch, t, b) && Turn(sch, t, b, m) == Some(g)
    ensures 0 < g.size <= |b| && (IsMessage(sch, t, b) <==> IsMessage(sch, t, b[g.size..]))
  {
    DecodeIsLocal(b, 10);
    var s, tag := Decode(b, 10).value.size, U32(Decode(b, 10).value.value);
    var k := Skip(b[s..], Layout(t, tag));
    if Number(tag) in t.byNumber {
      FieldIsStrict(sch, t, t.byNumber[Number(tag)], tag, b[s..], m);
    }
    NoFlawGoesOn(sch, t, b, s, k);
    assert b[s..][k..] == b[g.size..];
  }

  lemma NextTurn(sch: Schema, t: MessageType, b: seq<byte>, m: map<string, Value>) returns (g: Got<map<string, Value>>)
    requires Decode(b, 10).Some? && DecodeMessage(sch, t, b, m).Some?
    ensures Turn(sch, t, b, m) == Some(g) && DecodeMessage(sch, t, b[g.size..], g.value).Some?
  {
    if Number(U32(Decode(b, 10).value.value)) in t.byNumber {
      g := KnownTurn(sch, t, b, m);
    } else {
      g := UnknownTurn(sch, t, b, m);
    }
  }

  lemma {:induction false} NoMessageHasFlaw(sch: Schema, t: MessageType, b: seq<byte>, m: map<string, Value>)
    returns (at: nat)
    requires GoodSchema(sch) && GoodType(t) && DecodeMessage(sch, t, b, m).Some? && !IsMessage(sch, t, b)
    ensures FlawAt(sch, t, b, m, at)
    decreases |b|, 1
  {
    if Flaw(sch, t, b) {
      at := 0;
      assert b[0..] == b;
    } else {
      var g := NextTurn(sch, t, b, m);
      TurnOfMessage(sch, t, b, m, g);
      at := RestHasFlaw(sch, t, b, m, g);
    }
  }

  lemma {:induction false} RestHasFlaw(sch: Schema, t: MessageType, b: seq<byte>, m: map<string, Value>,
                                       g: Got<map<string, Value>>)
    returns (at: nat)
    requires GoodSchema(sch) && GoodType(t) && Turn(sch, t, b, m) == Some(g) && 0 < g.size <= |b|
    requires DecodeMessage(sch, t, b[g.size..], g.value).Some? && !IsMessage(sch, t, b[g.size..])
    ensures FlawAt(sch, t, b, m, at)
    decreases |b|, 0
  {
    var at' := NoMessageHasFlaw(sch, t, b[g.size..], g.value);
    at := g.size + at';
    assert b[g.size..][at'..] == b[at..];
  }

  lemma {:induction false} FlawedIsNoMessage(sch: Schema, t: MessageType, b: seq<byte>, m: map<string, Value>, at: nat)
    requires GoodSchema(sch) && GoodType(t) && FlawAt(sch, t, b, m, at)
    ensures !IsMessage(sch, t, b)
    decreases |b|, 1
  {
    if Flaw(sch, t, b) {
      FlawIsNoMessage(sch, t, b);
    } else {
      assert b[0..] == b;
      LaterFlaw(sch, t, b, m, at);
    }
  }

  lemma {:induction false} LaterFlaw(sch: Schema, t: MessageType, b: seq<byte>, m: map<string, Value>, at: nat)
    requires GoodSchema(sch) && GoodType(t) && FlawAt(sch, t, b, m, at) && 0 < at && !Flaw(sch, t, b)
    ensures !IsMessage(sch, t, b)
    decreases |b|, 0
  {
    var g := Turn(sch, t, b, m).value;
    assert b[g.size..][at - g.size..] == b[at..];
    FlawedIsNoMessage(sch, t, b[g.size..], g.value, at - g.size);
    TurnOfMessage(sch, t, b, m, g);
  }

  /** The decoder accepts what the strict one refuses if and only if its loop comes to bytes that are no tag,
      to an unknown field without a well-formed value, or to a known field inside of which this is so. */
  lemma AcceptedIffFlawed(sch: Schema, t: MessageType, b: seq<byte>, m: map<string, Value>)
    requires GoodSchema(sch) && GoodType(t) && DecodeMessage(sch, t, b, m).Some?
    ensures StrictMessage(sch, t, b, m) == None <==> exists at: nat :: FlawAt(sch, t, b, m, at)
  {
    MessageIsStrict(sch, t, b, m);
    if IsMessage(sch, t, b) {
      forall at: nat ensures !FlawAt(sch, t, b, m, at) {
        if FlawAt(sch, t, b, m, at) {
          FlawedIsNoMessage(sch, t, b, m, at);
        }
      }
    } else {
      var at := NoMessageHasFlaw(sch, t, b, m);
    }
  }

  // ---- Two inputs ----

  lemma SmallTag(c: byte, rest: seq<byte>)
    requires c < 0x80
    ensures Decode([c] + rest, 10) == Some(Varint.Read(c, 1)) && ([c] + rest)[1..] == rest
    ensures U32(c) == c == U64(c)
  {
  }

  lemma UnknownStep(sch: Schema, t: MessageType, c: byte, rest: seq<byte>, m: map<string, Value>)
    requires c < 0x80 && Number(c) !in t.byNumber && Skip(rest, c) == 0
    ensures DecodeMessage(sch, t, [c] + rest, m) == DecodeMessage(sch, t, rest, m)
    ensures StrictMessage(sch, t, [c] + rest, m) == None
  {
    SmallTag(c, rest);
    assert rest[0..] == rest;
  }

  // Field 5 announces a hundred bytes that are not there; its length is taken for the next tag.
  lemma FailedSkipIsIgnored(sch: Schema, t: MessageType, f: Field, m: map<string, Value>)
    requires 1 in t.byNumber && t.byNumber[1] == f && f.kind == Kind.Int32 && f.shape == Single
    requires 5 !in t.byNumber && 12 !in t.byNumber
    ensures DecodeMessage(sch, t, [0x2a, 0x64, 0x08, 0x07], m) == Some(m[f.name := Plain(Int(7))])
    ensures StrictMessage(sch, t, [0x2a, 0x64, 0x08, 0x07], m) == None
  {
    var last: seq<byte> := [0x08] + ([7] + []);
    assert [0x2a, 0x64, 0x08, 0x07] == [0x2a] + ([0x64] + last);
    SmallTag(0x64, last);
    UnknownStep(sch, t, 0x2a, [0x64] + last, m);
    UnknownStep(sch, t, 0x64, last, m);
    KnownEnds(sch, t, f, m);
  }

  lemma KnownEnds(sch: Schema, t: MessageType, f: Field, m: map<string, Value>)
    requires 1 in t.byNumber && t.byNumber[1] == f && f.kind == Kind.Int32 && f.shape == Single
    ensures DecodeMessage(sch, t, [0x08] + ([7] + []), m) == Some(m[f.name := Plain(Int(7))])
  {
    SmallTag(0x08, [7] + []);
    SmallTag(7, []);
    assert FromWord(Kind.Int32, 7) == Int(7);
    assert ReadField(sch, Kind.Int32, 8, [7] + []) == Some(Got(Plain(Int(7)), 1));
    assert DecodeField(sch, f, 8, [7] + [], m) == Some(Got(m[f.name := Plain(Int(7))], 1));
    DecodeIsLocal([], 10);
  }

  // A last tag that breaks off counts as the end.
  lemma BrokenTagIsIgnored(sch: Schema, t: MessageType, m: map<string, Value>)
    ensures DecodeMessage(sch, t, [0x88], m) == Some(m) && StrictMessage(sch, t, [0x88], m) == None
  {
    assert [0x88][1..] == [];
    assert Decode([0x88], 10) == None;
  }
}
