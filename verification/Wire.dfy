/** Skipping over fields of the protobuf wire format: scalars, length-delimited values and nested
    groups, against a grammar of well-formed values.

    `SkipValue` and `ReadGroup` move the cursor; `Skip` and `SkipGroup` are the lengths they move it
    by, and the lemmas say that these are exactly the lengths of well-formed values.
 */
module Wire {
  import opened Common
  import opened Words
  import opened Varint

  datatype WireType = VARINT | I64 | LEN | GSTART | GEND | I32 | Unknown

  // pb_gettype, pb_gettag
  function Type(tag: nat): WireType {
    match tag % 8
    case 0 => VARINT
    case 1 => I64
    case 2 => LEN
    case 3 => GSTART
    case 4 => GEND
    case 5 => I32
    case _ => Unknown
  }

  function Number(tag: nat): nat { tag / 8 }

  // ---- The grammar ----

  // A value: the bytes of each scalar or payload, or the fields of a group.
  datatype WireValue =
    | Scalar(bytes: seq<byte>)
    | Record(length: seq<byte>, payload: seq<byte>)
    | Group(fields: seq<Tagged>, end: seq<byte>)

  datatype Tagged = Tagged(tag: seq<byte>, value: WireValue)

  function Flat(v: WireValue): seq<byte> {
    match v
    case Scalar(b) => b
    case Record(l, p) => l + p
    case Group(fs, e) => FlatFields(fs) + e
  }

  function FlatFields(fs: seq<Tagged>): seq<byte> {
    if fs == [] then [] else fs[0].tag + Flat(fs[0].value) + FlatFields(fs[1..])
  }

  // b is one whole varint of at most ten bytes.
  predicate IsVarint(b: seq<byte>) {
    Decode(b, 10).Some? && Decode(b, 10).value.size == |b|
  }

  function TagOf(b: seq<byte>): nat
    requires IsVarint(b)
  {
    U32(Decode(b, 10).value.value)
  }

  // A skipped varint ends at its first byte without the top bit, however long it is.
  predicate IsLongVarint(b: seq<byte>) {
    b != [] && b[|b| - 1] < 0x80 && forall i | 0 <= i < |b| - 1 :: b[i] >= 0x80
  }

  predicate WellFormed(v: WireValue, tag: nat) {
    match Type(tag)
    case VARINT => v.Scalar? && IsLongVarint(v.bytes)
    case I64 => v.Scalar? && |v.bytes| == 8
    case I32 => v.Scalar? && |v.bytes| == 4
    case LEN => v.Record? && IsVarint(v.length) && |v.payload| == U64(Decode(v.length, 10).value.value)
    case GSTART =>
      && v.Group? && WellFormedFields(v.fields)
      && IsVarint(v.end) && Type(TagOf(v.end)) == GEND && Number(TagOf(v.end)) == Number(tag)
    case _ => false
  }

  predicate WellFormedFields(fs: seq<Tagged>) {
    fs == [] ||
    (&& IsVarint(fs[0].tag) && WellFormed(fs[0].value, TagOf(fs[0].tag))
     && WellFormedFields(fs[1..]))
  }

  // ---- What the code skips ----

  // pb_skipvarint: the position after the first byte without the top bit; 0 if there is none.
  function SkipVarintSize(b: seq<byte>): (n: nat)
    ensures n <= |b|
  {
    if b == [] then 0
    else if b[0] < 0x80 then 1
    else
      var n := SkipVarintSize(b[1..]);
      if n == 0 then 0 else n + 1
  }

  // pb_skipbytes
  function SkipBytesSize(b: seq<byte>): (n: nat)
    ensures n <= |b|
  {
    DecodeIsLocal(b, 10);
    match Decode(b, 10)
    case None => 0
    case Some(r) => if |b| - r.size < U64(r.value) then 0 else r.size + U64(r.value)
  }

  // A length that comes after `done` more bytes; 0 stays failure.
  function After(done: nat, n: nat): nat {
    if n == 0 then 0 else done + n
  }

  // pb_skipvalue: the number of bytes, 0 for failure.
  function Skip(b: seq<byte>, tag: nat): (n: nat)
    ensures n <= |b|
    decreases |b|, 2
  {
    match Type(tag)
    case VARINT => SkipVarintSize(b)
    case I64 => if 8 > |b| then 0 else 8
    case LEN => SkipBytesSize(b)
    case I32 => if 4 > |b| then 0 else 4
    case GSTART => SkipGroup(b, Number(tag))
    case _ => 0
  }

  // The loop of pb_readgroup, from some field on: the number of bytes up to and including the end
  // tag with this number, 0 for failure.
  function SkipGroup(b: seq<byte>, number: nat): (n: nat)
    ensures n <= |b|
    decreases |b|, 1
  {
    DecodeIsLocal(b, 10);
    match Decode(b, 10)
    case None => 0
    case Some(r) => SkipTagged(b, number, r.size, U32(r.value))
  }

  // One turn of that loop, after the tag has been read from the first `size` bytes.
  function SkipTagged(b: seq<byte>, number: nat, size: nat, tag: nat): (n: nat)
    requires 0 < size <= |b|
    ensures n <= |b|
    decreases |b|, 0
  {
    if Type(tag) == GEND then
      if Number(tag) == number then size else 0
    else
      var n := Skip(b[size..], tag);
      if n == 0 then 0 else After(size + n, SkipGroup(b[size + n..], number))
  }

  // ---- The code ----

  method SkipVarint(s: Slice) returns (ret: nat)
    requires s.Valid()
    modifies s`p
    ensures s.Valid() && ret == SkipVarintSize(old(s.Rest())) && s.p == old(s.p) + ret
  {
    var p := s.p;
    while p < |s.data| && s.data[p] >= 0x80
      invariant s.p <= p <= |s.data|
      invariant SkipVarintSize(s.data[s.p..]) ==
                var n := SkipVarintSize(s.data[p..]); if n == 0 then 0 else p - s.p + n
    {
      assert s.data[p..][1..] == s.data[p + 1..];
      p := p + 1;
    }
    if p >= |s.data| {
      return 0;
    }
    p := p + 1;
    ret := p - s.p;
    s.p := p;
  }

  method SkipSlice(s: Slice, len: nat) returns (ret: nat)
    requires s.Valid()
    modifies s`p
    ensures s.Valid() && s.p == old(s.p) + ret
    ensures ret == if len > |old(s.Rest())| then 0 else len
  {
    if s.p + len > |s.data| {
      return 0;
    }
    s.p := s.p + len;
    return len;
  }

  method SkipBytes(s: Slice) returns (ret: nat)
    requires s.Valid()
    modifies s`p
    ensures s.Valid() && ret == SkipBytesSize(old(s.Rest())) && s.p == old(s.p) + ret
  {
    var p := s.p;
    var size, len := ReadVarint64(s);
    if size == 0 {
      return 0;
    }
    if |s.data| - s.p < len {
      s.p := p;
      return 0;
    }
    s.p := s.p + len;
    return s.p - p;
  }

  method SkipValue(s: Slice, tag: nat) returns (ret: nat)
    requires s.Valid()
    modifies s`p
    ensures s.Valid() && ret == Skip(old(s.Rest()), tag) && s.p == old(s.p) + ret
    decreases |s.data| - s.p, 1
  {
    var p := s.p;
    ret := 0;
    match Type(tag) {
      case VARINT => ret := SkipVarint(s);
      case I64 => ret := SkipSlice(s, 8);
      case LEN => ret := SkipBytes(s);
      case I32 => ret := SkipSlice(s, 4);
      case GSTART =>
        var data;
        ret, data := ReadGroup(s, tag);
      case _ =>
    }
    if ret == 0 {
      s.p := p;
    }
  }

  // A turn of the loop of pb_readgroup that finds a tag.
  lemma GroupTag(d: seq<byte>, number: nat, count: nat, tag: nat)
    requires Reads32(d, count, tag) && 0 < count <= |d|
    ensures SkipGroup(d, number) == SkipTagged(d, number, count, tag)
  {
  }

  lemma GroupEnds(d: seq<byte>, number: nat, tag: nat)
    requires Reads32(d, 0, tag)
    ensures SkipGroup(d, number) == 0
  {
    DecodeIsLocal(d, 10);
  }

  // The value of a field inside a group, whose tag began at `at`.
  method SkipField(s: Slice, tag: nat, ghost at: nat, ghost number: nat) returns (n: nat)
    requires s.Valid() && at < s.p && Type(tag) != GEND && Reads32(s.data[at..], s.p - at, tag)
    modifies s`p
    ensures s.Valid() && s.p == old(s.p) + n
    ensures SkipGroup(s.data[at..], number) ==
            if n == 0 then 0 else After(s.p - at, SkipGroup(s.data[s.p..], number))
    decreases |s.data| - s.p, 2
  {
    ghost var d, count := s.data[at..], s.p - at;
    assert d[count..] == s.Rest();
    n := SkipValue(s, tag);
    assert d[count + n..] == s.data[s.p..];
    GroupTag(d, number, count, tag);
  }

  // pb_readgroup: `group` is what lies before the end tag.
  method ReadGroup(s: Slice, tag: nat) returns (ret: nat, group: seq<byte>)
    requires s.Valid() && Type(tag) == GSTART
    modifies s`p
    ensures s.Valid() && ret == SkipGroup(old(s.Rest()), Number(tag)) && s.p == old(s.p) + ret
    ensures ret > 0 ==> |group| < ret && group == old(s.Rest())[..|group|]
    decreases |s.data| - s.p, 0
  {
    var p := s.p;
    ghost var at, rest, number := s.p, s.Rest(), Number(tag);
    ghost var whole, left := SkipGroup(rest, number), SkipGroup(rest, number);
    var count, newtag := ReadVarint32(s);
    ReadsFit(rest, count, newtag);
    while count != 0
      invariant p <= at <= at + count == s.p <= |s.data|
      invariant Reads32(s.data[at..], count, newtag)
      invariant left == SkipGroup(s.data[at..], number) && whole == After(at - p, left)
      decreases |s.data| - s.p
    {
      ghost var d := s.data[at..];
      if Type(newtag) == GEND {
        GroupTag(d, number, count, newtag);
        if Number(newtag) != Number(tag) {
          break;
        }
        return s.p - p, s.data[p..s.p - count];
      }
      var n := SkipField(s, newtag, at, number);
      if n == 0 {
        break;
      }
      at, left := s.p, SkipGroup(s.data[s.p..], number);
      count, newtag := ReadVarint32(s);
      ReadsFit(s.data[at..], count, newtag);
    }
    if count == 0 {
      GroupEnds(s.data[at..], number, newtag);
    }
    s.p := p;
    return 0, [];
  }

  // ---- What is skipped is exactly one well-formed value ----

  lemma {:induction false} LongVarintSound(b: seq<byte>)
    requires SkipVarintSize(b) > 0
    ensures IsLongVarint(b[..SkipVarintSize(b)])
  {
    if b[0] >= 0x80 {
      LongVarintSound(b[1..]);
      var n := SkipVarintSize(b);
      var c := b[1..][..n - 1];
      assert c == b[..n][1..];
      assert b[..n][n - 1] == c[n - 2];
      forall i | 0 <= i < n - 1 ensures b[..n][i] >= 0x80 {
        if i > 0 {
          assert b[..n][i] == c[i - 1];
        }
      }
    }
  }

  lemma {:induction false} LongVarintComplete(b: seq<byte>, rest: seq<byte>)
    requires IsLongVarint(b)
    ensures SkipVarintSize(b + rest) == |b|
  {
    if |b| > 1 {
      assert b[0] >= 0x80;
      LongVarintComplete(b[1..], rest);
      assert (b + rest)[1..] == b[1..] + rest;
    }
  }

  // A varint at the front of b, cut out.
  lemma VarintSound(b: seq<byte>)
    requires Decode(b, 10).Some?
    ensures 0 < Decode(b, 10).value.size <= |b|
    ensures Decode(b[..Decode(b, 10).value.size], 10) == Decode(b, 10)
  {
    DecodeIsLocal(b, 10);
    var n := Decode(b, 10).value.size;
    DecodeIgnoresRest(b, b[..n], 10);
  }

  lemma VarintComplete(b: seq<byte>, rest: seq<byte>)
    requires IsVarint(b)
    ensures Decode(b + rest, 10) == Decode(b, 10) && b != []
  {
    assert (b + rest)[..|b|] == b == b[..|b|];
    DecodeIgnoresRest(b, b + rest, 10);
  }

  lemma {:induction false} SkipIsSound(b: seq<byte>, tag: nat) returns (v: WireValue)
    requires Skip(b, tag) > 0
    ensures WellFormed(v, tag) && Flat(v) == b[..Skip(b, tag)]
    decreases |b|, 2
  {
    var n := Skip(b, tag);
    match Type(tag) {
      case VARINT =>
        LongVarintSound(b);
        v := Scalar(b[..n]);
      case I64 => v := Scalar(b[..8]);
      case I32 => v := Scalar(b[..4]);
      case LEN =>
        VarintSound(b);
        var size := Decode(b, 10).value.size;
        v := Record(b[..size], b[size..n]);
        assert b[..n] == b[..size] + b[size..n];
      case GSTART =>
        var fs, e := GroupIsSound(b, Number(tag));
        v := Group(fs, e);
    }
  }

  lemma ThreeParts(b: seq<byte>, i: nat, n: nat, m: nat, total: nat)
    requires total == i + n + m <= |b|
    ensures b[..total] == b[..i] + b[i..][..n] + b[i + n..][..m]
  {
  }

  lemma ConsFields(f: Tagged, fs: seq<Tagged>, e: seq<byte>)
    requires WellFormedFields(fs) && IsVarint(f.tag) && WellFormed(f.value, TagOf(f.tag))
    ensures WellFormedFields([f] + fs)
    ensures FlatFields([f] + fs) + e == f.tag + Flat(f.value) + (FlatFields(fs) + e)
  {
    assert ([f] + fs)[1..] == fs;
  }

  ghost predicate IsGroup(fs: seq<Tagged>, e: seq<byte>, number: nat) {
    WellFormedFields(fs) && IsVarint(e) && Type(TagOf(e)) == GEND && Number(TagOf(e)) == number
  }

  lemma {:induction false} GroupIsSound(b: seq<byte>, number: nat) returns (fs: seq<Tagged>, e: seq<byte>)
    requires SkipGroup(b, number) > 0
    ensures IsGroup(fs, e, number) && FlatFields(fs) + e == b[..SkipGroup(b, number)]
    decreases |b|, 1
  {
    VarintSound(b);
    var r := Decode(b, 10).value;
    var tag := U32(r.value);
    if Type(tag) == GEND {
      GroupTag(b, number, r.size, tag);
      fs, e := [], b[..r.size];
    } else {
      fs, e := GroupGoesOn(b, number, r.size, tag);
    }
  }

  // A field, and then the rest of the group.
  lemma {:induction false} GroupGoesOn(b: seq<byte>, number: nat, size: nat, tag: nat)
    returns (fs: seq<Tagged>, e: seq<byte>)
    requires SkipGroup(b, number) > 0 && 0 < size <= |b| && Reads32(b, size, tag) && Type(tag) != GEND
    requires IsVarint(b[..size]) && TagOf(b[..size]) == tag
    ensures IsGroup(fs, e, number) && FlatFields(fs) + e == b[..SkipGroup(b, number)]
    decreases |b|, 0
  {
    var n := Skip(b[size..], tag);
    var rest := b[size + n..];
    GroupTag(b, number, size, tag);
    ThreeParts(b, size, n, SkipGroup(rest, number), SkipGroup(b, number));
    var v := SkipIsSound(b[size..], tag);
    fs, e := GroupIsSound(rest, number);
    ConsFields(Tagged(b[..size], v), fs, e);
    fs := [Tagged(b[..size], v)] + fs;
  }

  lemma RecordComplete(length: seq<byte>, payload: seq<byte>, rest: seq<byte>)
    requires IsVarint(length) && |payload| == U64(Decode(length, 10).value.value)
    ensures SkipBytesSize(length + payload + rest) == |length + payload| > 0
  {
    assert length + payload + rest == length + (payload + rest);
    VarintComplete(length, payload + rest);
  }

  lemma {:induction false} SkipIsComplete(v: WireValue, tag: nat, rest: seq<byte>)
    requires WellFormed(v, tag)
    ensures Skip(Flat(v) + rest, tag) == |Flat(v)| > 0
    decreases v, 0
  {
    match Type(tag) {
      case VARINT => LongVarintComplete(v.bytes, rest);
      case I64 =>
      case I32 =>
      case LEN => RecordComplete(v.length, v.payload, rest);
      case GSTART =>
        assert Flat(v) + rest == FlatFields(v.fields) + (v.end + rest);
        FieldsAreComplete(v.fields, v.end, Number(tag), rest);
        assert FlatFields(v.fields) + v.end + rest == Flat(v) + rest;
    }
  }

  // What skipping a group does with these fields and this end tag.
  ghost predicate SkipsFields(fs: seq<Tagged>, e: seq<byte>, number: nat, rest: seq<byte>) {
    SkipGroup(FlatFields(fs) + e + rest, number) == |FlatFields(fs) + e| > 0
  }

  lemma NoFields(e: seq<byte>, number: nat, rest: seq<byte>)
    requires IsVarint(e) && Type(TagOf(e)) == GEND && Number(TagOf(e)) == number
    ensures SkipsFields([], e, number, rest)
  {
    VarintComplete(e, rest);
    assert FlatFields([]) + e + rest == e + rest;
    GroupTag(e + rest, number, |e|, TagOf(e));
  }

  lemma OneMoreField(fs: seq<Tagged>, e: seq<byte>, number: nat, rest: seq<byte>)
    requires fs != [] && IsVarint(fs[0].tag) && Type(TagOf(fs[0].tag)) != GEND
    requires var v := Flat(fs[0].value);
             Skip(v + (FlatFields(fs[1..]) + e + rest), TagOf(fs[0].tag)) == |v| > 0
    requires SkipsFields(fs[1..], e, number, rest)
    ensures SkipsFields(fs, e, number, rest)
  {
    var t, v, more := fs[0].tag, Flat(fs[0].value), FlatFields(fs[1..]) + e + rest;
    VarintComplete(t, v + more);
    JoinFields(t, v, FlatFields(fs[1..]), e, rest);
    GroupTag(t + (v + more), number, |t|, TagOf(t));
  }

  lemma {:induction false} FieldsAreComplete(fs: seq<Tagged>, e: seq<byte>, number: nat, rest: seq<byte>)
    requires WellFormedFields(fs) && IsVarint(e) && Type(TagOf(e)) == GEND && Number(TagOf(e)) == number
    ensures SkipsFields(fs, e, number, rest)
    decreases fs, 1
  {
    if fs == [] {
      NoFields(e, number, rest);
    } else {
      SkipIsComplete(fs[0].value, TagOf(fs[0].tag), FlatFields(fs[1..]) + e + rest);
      FieldsAreComplete(fs[1..], e, number, rest);
      OneMoreField(fs, e, number, rest);
    }
  }

  lemma JoinFields(t: seq<byte>, v: seq<byte>, fs: seq<byte>, e: seq<byte>, rest: seq<byte>)
    ensures (t + v + fs) + e + rest == t + (v + (fs + e + rest))
    ensures (t + (v + (fs + e + rest)))[|t|..] == v + (fs + e + rest)
    ensures (t + (v + (fs + e + rest)))[|t| + |v|..] == fs + e + rest
  {
  }

  // A skip succeeds on n bytes if and only if they are one well-formed value, with groups nested
  // to any depth.
  lemma SkipIffWellFormed(b: seq<byte>, tag: nat, n: nat)
    requires 0 < n <= |b|
    ensures Skip(b, tag) == n <==> exists v :: WellFormed(v, tag) && Flat(v) == b[..n]
  {
    if Skip(b, tag) == n {
      var v := SkipIsSound(b, tag);
    } else if v :| WellFormed(v, tag) && Flat(v) == b[..n] {
      assert Flat(v) + b[n..] == b;
      SkipIsComplete(v, tag, b[n..]);
    }
  }

  lemma {:induction false} DecodeIffShort(b: seq<byte>, limit: nat)
    requires IsLongVarint(b)
    ensures Decode(b, limit).Some? <==> |b| <= limit
  {
    if limit > 0 && |b| > 1 {
      assert b[0] >= 0x80;
      DecodeIffShort(b[1..], limit - 1);
    }
  }

  // The skipper is more tolerant than the readers: it takes a varint of any length, they take one
  // of at most ten bytes.
  lemma SkippedButNotRead(b: seq<byte>)
    requires IsLongVarint(b)
    ensures SkipVarintSize(b) == |b|
    ensures Decode(b, 10).Some? <==> |b| <= 10
  {
    LongVarintComplete(b, []);
    assert b + [] == b;
    DecodeIffShort(b, 10);
  }

  // ---- Length-delimited records ----

  // A length-delimited record; the length is a 64-bit word.
  function Delimited(b: seq<byte>): seq<byte> { Encode(U64(|b|)) + b }

  // pb_addbytes writes the length as a 32-bit word.
  function Prefixed(b: seq<byte>): seq<byte> { Encode(U32(|b|)) + b }

  lemma PrefixedIsDelimited(b: seq<byte>)
    requires |b| < 0x1_0000_0000
    ensures Prefixed(b) == Delimited(b)
  {
  }

  // A payload and the size of the whole record.
  datatype Payload = Payload(bytes: seq<byte>, size: nat)

  function ReadDelimited(b: seq<byte>): (r: Option<Payload>)
    ensures r.Some? ==> |r.value.bytes| < r.value.size <= |b|
  {
    DecodeIsLocal(b, 10);
    match Decode(b, 10)
    case None => None
    case Some(r) =>
      if |b| - r.size < U64(r.value) then None
      else Some(Payload(b[r.size..r.size + U64(r.value)], r.size + U64(r.value)))
  }

  // pb_readbytes: on failure the position is restored.
  method ReadBytes(s: Slice) returns (ret: nat, bytes: seq<byte>)
    requires s.Valid()
    modifies s`p
    ensures s.Valid() && s.p == old(s.p) + ret
    ensures match ReadDelimited(old(s.Rest()))
            case None => ret == 0
            case Some(r) => ret == r.size && bytes == r.bytes
  {
    var p := s.p;
    ghost var d := s.Rest();
    var size, len := ReadVarint64(s);
    ReadsFit(d, size, len);
    if size == 0 || |s.data| - s.p < len {
      s.p := p;
      return 0, [];
    }
    bytes := s.data[s.p..s.p + len];
    assert bytes == d[size..size + len];
    s.p := s.p + len;
    return s.p - p, bytes;
  }

  // Reading takes apart what was put together.
  lemma DelimitedRoundTrip(b: seq<byte>, rest: seq<byte>)
    requires |b| < 0x1_0000_0000_0000_0000
    ensures ReadDelimited(Delimited(b) + rest) == Some(Payload(b, |Delimited(b)|))
  {
    TenGroups();
    var d := Delimited(b) + rest;
    assert d == Encode(|b|) + (b + rest);
    DecodeEncode(|b|, b + rest, 10);
    assert d[|Encode(|b|)|..|Delimited(b)|] == b;
  }
}
