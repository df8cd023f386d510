/** Numbers on the wire: base-128 varints, with the unrolled readers and writers against one
    recursive definition, and little-endian fixed-size numbers.

    Shifts and masks are written as arithmetic. Unsigned machine words are reduced explicitly.
 */
module Varint {
  import opened Common
  import opened Words

  datatype Read = Read(value: nat, size: nat)

  // What a varint at the front of b stands for, before any reduction: groups of 7 bits, least
  // significant first, in at most `limit` bytes, the last of which has its top bit clear.
  function Decode(b: seq<byte>, limit: nat): Option<Read> {
    if b == [] || limit == 0 then None
    else if b[0] < 0x80 then Some(Read(b[0], 1))
    else match Decode(b[1..], limit - 1)
      case None => None
      case Some(r) => Some(Read(b[0] % 0x80 + 0x80 * r.value, r.size + 1))
  }

  // The canonical encoding.
  function Encode(n: nat): (b: seq<byte>)
    ensures b != []
  {
    if n < 0x80 then [n] else [0x80 + n % 0x80] + Encode(n / 0x80)
  }

  // `x << (7 * k)`
  function Shift(x: int, k: nat): (r: int)
    ensures x >= 0 ==> r >= 0
  {
    if k == 0 then x else 0x80 * Shift(x, k - 1)
  }

  lemma {:induction false} ShiftAdds(x: int, y: int, k: nat)
    ensures Shift(x + y, k) == Shift(x, k) + Shift(y, k)
  {
    if k > 0 {
      ShiftAdds(x, y, k - 1);
    }
  }

  lemma {:induction false} ShiftOnce(x: int, k: nat)
    ensures Shift(0x80 * x, k) == Shift(x, k + 1)
  {
    if k > 0 {
      ShiftOnce(x, k - 1);
    }
  }

  lemma ShiftValues(x: int)
    ensures Shift(x, 0) == x && Shift(x, 1) == 0x80 * x && Shift(x, 2) == 0x4000 * x
    ensures Shift(x, 3) == 0x20_0000 * x && Shift(x, 4) == 0x1000_0000 * x
    ensures Shift(x, 5) == 0x8_0000_0000 * x
  {
    assert Shift(x, 1) == 0x80 * Shift(x, 0);
    assert Shift(x, 2) == 0x80 * Shift(x, 1);
    assert Shift(x, 3) == 0x80 * Shift(x, 2);
    assert Shift(x, 4) == 0x80 * Shift(x, 3);
    assert Shift(x, 5) == 0x80 * Shift(x, 4);
  }

  // ---- The definition ----

  lemma {:induction false} DecodeIsLocal(b: seq<byte>, limit: nat)
    ensures match Decode(b, limit)
            case Some(r) => 0 < r.size <= |b| && r.size <= limit
            case None => forall i | 0 <= i < |b| && i < limit :: b[i] >= 0x80
  {
    if b != [] && limit > 0 && b[0] >= 0x80 {
      DecodeIsLocal(b[1..], limit - 1);
      if Decode(b[1..], limit - 1) == None {
        forall i | 0 <= i < |b| && i < limit ensures b[i] >= 0x80 {
          if i > 0 {
            assert b[i] == b[1..][i - 1];
          }
        }
      }
    }
  }

  // Only the bytes that were read matter.
  lemma {:induction false} DecodeIgnoresRest(b: seq<byte>, c: seq<byte>, limit: nat)
    requires Decode(b, limit).Some?
    requires Decode(b, limit).value.size <= |b| && Decode(b, limit).value.size <= |c|
    requires b[..Decode(b, limit).value.size] == c[..Decode(b, limit).value.size]
    ensures Decode(c, limit) == Decode(b, limit)
  {
    DecodeIsLocal(b, limit);
    var n := Decode(b, limit).value.size;
    assert c[0] == c[..n][0] == b[..n][0] == b[0];
    if b[0] >= 0x80 {
      assert b[1..][..n - 1] == b[..n][1..] == c[..n][1..] == c[1..][..n - 1];
      DecodeIgnoresRest(b[1..], c[1..], limit - 1);
    }
  }

  // Round trip: decoding the encoding of n, followed by anything, gives back n.
  lemma {:induction false} DecodeEncode(n: nat, rest: seq<byte>, limit: nat)
    requires limit > 0 && n < Shift(1, limit)
    ensures Decode(Encode(n) + rest, limit) == Some(Read(n, |Encode(n)|))
  {
    if n >= 0x80 {
      assert limit > 1;
      DecodeEncode(n / 0x80, rest, limit - 1);
      assert (Encode(n) + rest)[1..] == Encode(n / 0x80) + rest;
    }
  }

  lemma TenGroups()
    ensures Shift(1, 10) == 0x40_0000_0000_0000_0000
  {
    ShiftValues(1);
    assert Shift(1, 6) == 0x80 * Shift(1, 5);
    assert Shift(1, 7) == 0x80 * Shift(1, 6);
    assert Shift(1, 8) == 0x80 * Shift(1, 7);
    assert Shift(1, 9) == 0x80 * Shift(1, 8);
    assert Shift(1, 10) == 0x80 * Shift(1, 9);
  }

  // No encoding is the start of another.
  lemma EncodeIsPrefixFree(m: nat, n: nat)
    requires m < 0x1_0000_0000_0000_0000 && n < 0x1_0000_0000_0000_0000 && Encode(m) <= Encode(n)
    ensures m == n
  {
    TenGroups();
    DecodeEncode(m, Encode(n)[|Encode(m)|..], 10);
    DecodeEncode(n, [], 10);
    assert Encode(m) + Encode(n)[|Encode(m)|..] == Encode(n) == Encode(n) + [];
  }

  // The 7-bit groups of the first k bytes.
  function Low(b: seq<byte>, k: nat): (r: nat)
    requires k <= |b|
  {
    if k == 0 then 0 else Low(b, k - 1) + Shift(b[k - 1] % 0x80, k - 1)
  }

  // What decoding has come to after k bytes that have their top bit set.
  lemma {:induction false} DecodeAfter(b: seq<byte>, limit: nat, k: nat)
    requires k <= |b| && k <= limit && forall i | 0 <= i < k :: b[i] >= 0x80
    ensures Decode(b, limit) == match Decode(b[k..], limit - k)
                                case None => None
                                case Some(r) => Some(Read(Low(b, k) + Shift(r.value, k), r.size + k))
  {
    if k == 0 {
      assert b[0..] == b;
    } else {
      DecodeAfter(b, limit, k - 1);
      assert b[k - 1..][1..] == b[k..];
      match Decode(b[k..], limit - k)
      case None =>
      case Some(r) =>
        ShiftAdds(b[k - 1] % 0x80, 0x80 * r.value, k - 1);
        ShiftOnce(r.value, k - 1);
    }
  }

  // ---- The reading cursor ----

  // pb_Slice: p is the read position, the start is 0 and the end is |data|.
  class Slice {
    const data: seq<byte>
    var p: nat

    ghost predicate Valid()
      reads this
    {
      p <= |data|
    }

    constructor (data: seq<byte>)
      ensures Valid() && this.data == data && p == 0
    {
      this.data, p := data, 0;
    }

    function Rest(): seq<byte>
      requires Valid()
      reads this
    {
      data[p..]
    }
  }

  // The value and size that a reader returns; size 0 is failure.
  predicate Reads32(d: seq<byte>, ret: nat, n: nat) {
    match Decode(d, 10)
    case None => ret == 0
    case Some(r) => ret == r.size && n == U32(r.value)
  }

  predicate Reads64(d: seq<byte>, ret: nat, n: nat) {
    match Decode(d, 10)
    case None => ret == 0
    case Some(r) => ret == r.size && n == U64(r.value)
  }

  // The first k bytes go on.
  predicate GoesOn(d: seq<byte>, k: nat) {
    k <= |d| && forall i | 0 <= i < k :: d[i] >= 0x80
  }

  // The byte after them.
  lemma NextByte(d: seq<byte>, k: nat)
    requires k < 10 && k < |d| && GoesOn(d, k)
    ensures d[k] >= 0x80 ==> GoesOn(d, k + 1) && Low(d, k + 1) == Low(d, k) + Shift(d[k] as int - 0x80, k)
    ensures d[k] < 0x80 ==> Decode(d, 10) == Some(Read(Low(d, k) + Shift(d[k], k), k + 1))
  {
    DecodeAfter(d, 10, k);
    assert d[k..][0] == d[k];
  }

  // The slow reader has taken i bytes.
  ghost predicate AtSlow(d: seq<byte>, i: nat, n: nat) {
    GoesOn(d, i) && n == U64(Low(d, i))
  }

  lemma SlowStep(d: seq<byte>, i: nat, n: nat)
    requires AtSlow(d, i, n) && i < 10 && i < |d|
    ensures d[i] < 0x80 ==> Reads64(d, i + 1, U64(n + Shift(d[i] % 0x80, i)))
    ensures d[i] >= 0x80 ==> AtSlow(d, i + 1, U64(n + Shift(d[i] % 0x80, i)))
  {
    NextByte(d, i);
    Wraps64(Low(d, i), Shift(d[i] % 0x80, i));
  }

  lemma SlowEnds(d: seq<byte>, i: nat)
    requires GoesOn(d, i) && (i == |d| || i == 10) && i <= 10
    ensures Decode(d, 10) == None
  {
    DecodeAfter(d, 10, i);
  }

  // The byte by byte reader, for the end of a slice.
  method ReadSlow(s: Slice) returns (ret: nat, v: nat)
    requires s.Valid()
    modifies s`p
    ensures s.Valid() && s.p == old(s.p) + ret && Reads64(old(s.Rest()), ret, v)
  {
    var p := s.p;
    var i := 0;
    ghost var d := s.Rest();
    v := 0;
    while s.p < |s.data| && i < 10
      invariant i <= 10 && s.p == p + i <= |s.data| && AtSlow(d, i, v)
    {
      var c := s.data[s.p];
      SlowStep(d, i, v);
      s.p := s.p + 1;
      v := U64(v + Shift(c % 0x80, i));
      i := i + 1;
      if c < 0x80 {
        return i, v;
      }
    }
    SlowEnds(d, i);
    s.p := p;
    return 0, 0;
  }

  // What the fast readers require: a slice of ten bytes, or one whose last byte ends a varint.
  predicate Bounded(d: seq<byte>) {
    |d| > 0 && d[0] >= 0x80 && (|d| >= 10 || d[|d| - 1] < 0x80)
  }

  lemma WithinSlice(d: seq<byte>, k: nat)
    requires Bounded(d) && 0 < k < 10 && GoesOn(d, k)
    ensures k < |d|
  {
  }

  lemma TenBytes(d: seq<byte>)
    requires GoesOn(d, 10)
    ensures Decode(d, 10) == None
  {
    DecodeAfter(d, 10, 10);
  }

  // From the sixth byte on nothing reaches the low 32 bits.
  lemma {:induction false} HighGroup(k: nat, x: int) returns (q: int)
    requires k >= 5
    ensures Shift(x, k) == 0x1_0000_0000 * q
  {
    if k == 5 {
      ShiftValues(x);
      q := 8 * x;
    } else {
      q := HighGroup(k - 1, x);
      q := 0x80 * q;
    }
  }

  // The 32-bit reader before its line k.
  ghost predicate At32(d: seq<byte>, k: nat, n: nat) {
    Bounded(d) && 0 < k && GoesOn(d, k) && n == U32(Low(d, k))
  }

  lemma Line32(d: seq<byte>, k: nat, n: nat)
    requires At32(d, k, n) && k < 10
    ensures k < |d|
    ensures d[k] < 0x80 ==> Reads32(d, k + 1, U32(n + Shift(d[k], k)))
    ensures d[k] >= 0x80 ==> At32(d, k + 1, U32(U32(n + Shift(d[k], k)) - Shift(0x80, k)))
  {
    WithinSlice(d, k);
    NextByte(d, k);
    var x := Shift(d[k], k);
    Wraps32(Low(d, k), x);
    if d[k] >= 0x80 {
      ShiftAdds(d[k] as int - 0x80, 0x80, k);
      Wraps32(Low(d, k) + x, 0 - Shift(0x80, k));
    }
  }

  // The fifth byte loses its top bit, and three more, by itself.
  lemma FifthLine32(d: seq<byte>, n: nat)
    requires At32(d, 4, n)
    ensures 4 < |d|
    ensures d[4] < 0x80 ==> Reads32(d, 5, U32(n + Shift(d[4], 4)))
    ensures d[4] >= 0x80 ==> At32(d, 5, U32(n + Shift(d[4], 4)))
  {
    Line32(d, 4, n);
    ShiftValues(0x80);
    Same32(U32(n + Shift(d[4], 4)) - Shift(0x80, 4), U32(n + Shift(d[4], 4)), -8);
  }

  lemma HighLine32(d: seq<byte>, k: nat, n: nat)
    requires At32(d, k, n) && 5 <= k < 10
    ensures k < |d|
    ensures d[k] < 0x80 ==> Reads32(d, k + 1, n)
    ensures d[k] >= 0x80 ==> At32(d, k + 1, n)
  {
    WithinSlice(d, k);
    NextByte(d, k);
    var q := HighGroup(k, if d[k] < 0x80 then d[k] else d[k] as int - 0x80);
    Same32(Low(d, k) + 0x1_0000_0000 * q, Low(d, k), q);
  }

  // The weight of the j-th group in a register.
  function Weight(j: nat): nat {
    match j
    case 0 => 1
    case 1 => 0x80
    case 2 => 0x4000
    case 3 => 0x20_0000
    case _ => 0x1000_0000
  }

  // `n += b << 7 * j` and `n -= 0x80 << 7 * j` in a 32-bit word, where c is 1 << 7 * j.
  method AddGroup(n: nat, b: byte, c: nat, ghost j: nat) returns (r: nat)
    requires j <= 4 && c == Weight(j)
    ensures r == U32(n + Shift(b, j))
  {
    ShiftValues(b);
    return U32(n + b as int * c);
  }

  method DropTopBit(n: nat, c: nat, ghost j: nat) returns (r: nat)
    requires j <= 4 && c == Weight(j)
    ensures r == U32(n - Shift(0x80, j))
  {
    ShiftValues(0x80);
    return U32(n - 0x80 * c);
  }

  // One line that keeps its group: the group is added and, if the varint goes on, the top bit taken off.
  method KeepLine32(d: seq<byte>, k: nat, n: nat, c: nat) returns (r: nat)
    requires At32(d, k, n) && k < 4 && c == Weight(k)
    ensures k < |d|
    ensures if d[k] < 0x80 then Reads32(d, k + 1, r) else At32(d, k + 1, r)
  {
    Line32(d, k, n);
    r := AddGroup(n, d[k], c, k);
    if d[k] >= 0x80 {
      r := DropTopBit(r, c, k);
    }
  }

  // The lines that keep their groups; 0 means that the varint goes on.
  method Low32(d: seq<byte>) returns (ret: nat, n: nat)
    requires Bounded(d)
    ensures if ret == 0 then At32(d, 5, n) else Reads32(d, ret, n)
  {
    FirstByte(d);
    n := KeepLine32(d, 1, U32(d[0] - 0x80), 0x80);
    if d[1] < 0x80 { return 2, n; }
    n := KeepLine32(d, 2, n, 0x4000);
    if d[2] < 0x80 { return 3, n; }
    n := KeepLine32(d, 3, n, 0x20_0000);
    if d[3] < 0x80 { return 4, n; }
    FifthLine32(d, n);
    n := AddGroup(n, d[4], 0x1000_0000, 4);
    return if d[4] < 0x80 then 5 else 0, n;
  }

  // The lines that only look for the end.
  method High32(d: seq<byte>, ghost n: nat) returns (ret: nat)
    requires At32(d, 5, n)
    ensures Reads32(d, ret, n)
  {
    HighLine32(d, 5, n);
    if d[5] < 0x80 { return 6; }
    HighLine32(d, 6, n);
    if d[6] < 0x80 { return 7; }
    HighLine32(d, 7, n);
    if d[7] < 0x80 { return 8; }
    HighLine32(d, 8, n);
    if d[8] < 0x80 { return 9; }
    HighLine32(d, 9, n);
    if d[9] < 0x80 { return 10; }
    TenBytes(d);
    return 0;
  }

  // pb_readvarint32_fallback
  method ReadUnrolled32(d: seq<byte>) returns (ret: nat, n: nat)
    requires Bounded(d)
    ensures Reads32(d, ret, n)
  {
    ret, n := Low32(d);
    if ret == 0 {
      ret := High32(d, n);
    }
  }

  lemma FirstByte(d: seq<byte>)
    requires Bounded(d)
    ensures At32(d, 1, U32(d[0] - 0x80)) && At64(d, 1, U32(d[0] - 0x80), 0, 0)
  {
    assert Low(d, 1) == Low(d, 0) + Shift(d[0] % 0x80, 0);
  }

  // A register that takes the groups from number `from` on, up to four, when k bytes were read.
  ghost predicate FitsGroups(n: nat, k: nat, from: nat) {
    n < Shift(1, if k < from then 0 else if k < from + 4 then k - from else 4)
  }

  // The 64-bit reader before its line k: four groups each in n1 and n2, two in n3.
  ghost predicate At64(d: seq<byte>, k: nat, n1: nat, n2: nat, n3: nat) {
    && Bounded(d) && 0 < k && GoesOn(d, k)
    && Low(d, k) == n1 + 0x1000_0000 * n2 + 0x100_0000_0000_0000 * n3
    && FitsGroups(n1, k, 0) && FitsGroups(n2, k, 4) && FitsGroups(n3, k, 8)
  }

  // `n1 | n2 << 28 | n3 << 56`, where n1 and n2 have 28 bits and the upper bits of n3 are lost.
  function Join(n1: nat, n2: nat, n3: nat): nat {
    U64(n1 + n2 * 0x1000_0000 + n3 * 0x100_0000_0000_0000)
  }

  // A register of four groups takes in one more byte without overflow.
  lemma Register(n: nat, j: nat, b: byte)
    requires n < Shift(1, j) && j < 4
    ensures U32(n + Shift(b, j)) == n + Shift(b, j)
    ensures b >= 0x80 ==>
              U32(n + Shift(b, j) - Shift(0x80, j)) == n + Shift(b as int - 0x80, j) < Shift(1, j + 1) <= 0x1000_0000
  {
    ShiftValues(b);
    ShiftValues(0x80);
    ShiftValues(1);
    ShiftValues(b as int - 0x80);
    assert j == 0 || j == 1 || j == 2 || j == 3;
  }

  lemma {:induction false} ShiftTwice(x: int, j: nat, k: nat)
    ensures Shift(Shift(x, j), k) == Shift(x, j + k)
  {
    if k > 0 {
      ShiftTwice(x, j, k - 1);
    }
  }

  // Four groups further up, eight groups further up.
  lemma Upper(x: int, k: nat)
    ensures k >= 4 ==> Shift(x, k) == 0x1000_0000 * Shift(x, k - 4)
    ensures k >= 8 ==> Shift(x, k) == 0x100_0000_0000_0000 * Shift(x, k - 8)
  {
    if k >= 4 {
      ShiftTwice(x, k - 4, 4);
      ShiftValues(Shift(x, k - 4));
    }
    if k >= 8 {
      ShiftTwice(x, k - 8, 4);
      ShiftValues(Shift(x, k - 8));
    }
  }

  lemma Line64A(d: seq<byte>, k: nat, n1: nat, n2: nat, n3: nat)
    requires At64(d, k, n1, n2, n3) && k < 4
    ensures k < |d|
    ensures d[k] < 0x80 ==> Reads64(d, k + 1, Join(U32(n1 + Shift(d[k], k)), n2, n3))
    ensures d[k] >= 0x80 ==> At64(d, k + 1, U32(U32(n1 + Shift(d[k], k)) - Shift(0x80, k)), n2, n3)
  {
    WithinSlice(d, k);
    NextByte(d, k);
    Register(n1, k, d[k]);
  }

  lemma Line64B(d: seq<byte>, k: nat, n1: nat, n2: nat, n3: nat)
    requires At64(d, k, n1, n2, n3) && 4 <= k < 8
    ensures k < |d|
    ensures d[k] < 0x80 ==> Reads64(d, k + 1, Join(n1, U32(n2 + Shift(d[k], k - 4)), n3))
    ensures d[k] >= 0x80 ==> At64(d, k + 1, n1, U32(U32(n2 + Shift(d[k], k - 4)) - Shift(0x80, k - 4)), n3)
  {
    WithinSlice(d, k);
    NextByte(d, k);
    Register(n2, k - 4, d[k]);
    if d[k] < 0x80 {
      Upper(d[k], k);
    } else {
      GoOn64B(d, k, n1, n2, n3, n2 + Shift(d[k] as int - 0x80, k - 4));
    }
  }

  lemma GoOn64B(d: seq<byte>, k: nat, n1: nat, n2: nat, n3: nat, n: nat)
    requires At64(d, k, n1, n2, n3) && 4 <= k < 8 && k < |d| && d[k] >= 0x80
    requires n == n2 + Shift(d[k] as int - 0x80, k - 4) && n < Shift(1, k - 3) <= 0x1000_0000
    ensures At64(d, k + 1, n1, n, n3)
  {
    NextByte(d, k);
    Upper(d[k] as int - 0x80, k);
  }

  lemma Line64C(d: seq<byte>, k: nat, n1: nat, n2: nat, n3: nat)
    requires At64(d, k, n1, n2, n3) && 8 <= k < 10
    ensures k < |d|
    ensures d[k] < 0x80 ==> Reads64(d, k + 1, Join(n1, n2, U32(n3 + Shift(d[k], k - 8))))
    ensures d[k] >= 0x80 ==> At64(d, k + 1, n1, n2, U32(U32(n3 + Shift(d[k], k - 8)) - Shift(0x80, k - 8)))
  {
    WithinSlice(d, k);
    NextByte(d, k);
    Upper(d[k], k);
    Upper(d[k] as int - 0x80, k);
    ShiftValues(1);
    Register(n3, k - 8, d[k]);
  }

  // One line each: a group is added to a register, and if the varint goes on, its top bit taken
  // out again.
  method LineA(d: seq<byte>, k: nat, n1: nat, ghost n2: nat, ghost n3: nat, c: nat) returns (r: nat)
    requires At64(d, k, n1, n2, n3) && k < 4 && c == Weight(k)
    ensures k < |d|
    ensures d[k] < 0x80 ==> Reads64(d, k + 1, Join(r, n2, n3))
    ensures d[k] >= 0x80 ==> At64(d, k + 1, r, n2, n3)
  {
    Line64A(d, k, n1, n2, n3);
    r := AddGroup(n1, d[k], c, k);
    if d[k] >= 0x80 {
      r := DropTopBit(r, c, k);
    }
  }

  method LineB(d: seq<byte>, k: nat, ghost n1: nat, n2: nat, ghost n3: nat, c: nat) returns (r: nat)
    requires At64(d, k, n1, n2, n3) && 4 <= k < 8 && c == Weight(k - 4)
    ensures k < |d|
    ensures d[k] < 0x80 ==> Reads64(d, k + 1, Join(n1, r, n3))
    ensures d[k] >= 0x80 ==> At64(d, k + 1, n1, r, n3)
  {
    Line64B(d, k, n1, n2, n3);
    r := AddGroup(n2, d[k], c, k - 4);
    if d[k] >= 0x80 {
      r := DropTopBit(r, c, k - 4);
    }
  }

  method LineC(d: seq<byte>, k: nat, ghost n1: nat, ghost n2: nat, n3: nat, c: nat) returns (r: nat)
    requires At64(d, k, n1, n2, n3) && 8 <= k < 10 && c == Weight(k - 8)
    ensures k < |d|
    ensures d[k] < 0x80 ==> Reads64(d, k + 1, Join(n1, n2, r))
    ensures d[k] >= 0x80 ==> At64(d, k + 1, n1, n2, r)
  {
    Line64C(d, k, n1, n2, n3);
    r := AddGroup(n3, d[k], c, k - 8);
    if d[k] >= 0x80 {
      r := DropTopBit(r, c, k - 8);
    }
  }

  // The lines of one register; 0 means that the varint goes on.
  method First64(d: seq<byte>) returns (ret: nat, n1: nat)
    requires Bounded(d)
    ensures if ret == 0 then At64(d, 4, n1, 0, 0) else Reads64(d, ret, Join(n1, 0, 0))
  {
    FirstByte(d);
    n1 := U32(d[0] - 0x80);
    n1 := LineA(d, 1, n1, 0, 0, 0x80);
    if d[1] < 0x80 { return 2, n1; }
    n1 := LineA(d, 2, n1, 0, 0, 0x4000);
    if d[2] < 0x80 { return 3, n1; }
    n1 := LineA(d, 3, n1, 0, 0, 0x20_0000);
    if d[3] < 0x80 { return 4, n1; }
    return 0, n1;
  }

  method Second64(d: seq<byte>, ghost n1: nat) returns (ret: nat, n2: nat)
    requires At64(d, 4, n1, 0, 0)
    ensures if ret == 0 then At64(d, 8, n1, n2, 0) else Reads64(d, ret, Join(n1, n2, 0))
  {
    n2 := 0;
    n2 := LineB(d, 4, n1, n2, 0, 1);
    if d[4] < 0x80 { return 5, n2; }
    n2 := LineB(d, 5, n1, n2, 0, 0x80);
    if d[5] < 0x80 { return 6, n2; }
    n2 := LineB(d, 6, n1, n2, 0, 0x4000);
    if d[6] < 0x80 { return 7, n2; }
    n2 := LineB(d, 7, n1, n2, 0, 0x20_0000);
    if d[7] < 0x80 { return 8, n2; }
    return 0, n2;
  }

  method Third64(d: seq<byte>, ghost n1: nat, ghost n2: nat) returns (ret: nat, n3: nat)
    requires At64(d, 8, n1, n2, 0)
    ensures Reads64(d, ret, Join(n1, n2, n3))
  {
    n3 := 0;
    n3 := LineC(d, 8, n1, n2, n3, 1);
    if d[8] < 0x80 { return 9, n3; }
    n3 := LineC(d, 9, n1, n2, n3, 0x80);
    if d[9] < 0x80 { return 10, n3; }
    TenBytes(d);
    return 0, 0;
  }

  // pb_readvarint64_fallback
  method ReadUnrolled64(d: seq<byte>) returns (ret: nat, n: nat)
    requires Bounded(d)
    ensures Reads64(d, ret, n)
  {
    var n1, n2, n3 := 0, 0, 0;
    ret, n1 := First64(d);
    if ret == 0 {
      ret, n2 := Second64(d, n1);
      if ret == 0 {
        ret, n3 := Third64(d, n1, n2);
      }
    }
    n := Join(n1, n2, n3);
  }

  lemma OneByte(d: seq<byte>)
    requires d != [] && d[0] < 0x80
    ensures Reads32(d, 1, d[0]) && Reads64(d, 1, d[0])
  {
  }

  lemma Narrow(d: seq<byte>, ret: nat, v: nat)
    requires Reads64(d, ret, v)
    ensures Reads32(d, ret, U32(v))
  {
    if Decode(d, 10).Some? {
      var x := Decode(d, 10).value.value;
      var q := U64Split(x);
      Same32(x, v, q * 0x1_0000_0000);
    }
  }

  // Success takes bytes that are there.
  lemma ReadsFit(d: seq<byte>, ret: nat, v: nat)
    requires Reads32(d, ret, v) || Reads64(d, ret, v)
    ensures ret <= |d|
  {
    DecodeIsLocal(d, 10);
  }

  // pb_readvarint32 and pb_readvarint64: one byte, many bytes, or the end of the slice.
  method ReadVarint32(s: Slice) returns (ret: nat, v: nat)
    requires s.Valid()
    modifies s`p
    ensures s.Valid() && s.p == old(s.p) + ret && Reads32(old(s.Rest()), ret, v)
  {
    ghost var d := s.Rest();
    if s.p >= |s.data| {
      return 0, 0;
    }
    if s.data[s.p] < 0x80 {
      OneByte(d);
      s.p := s.p + 1;
      return 1, s.data[s.p - 1];
    }
    if |s.data| - s.p >= 10 || s.data[|s.data| - 1] < 0x80 {
      assert d[|d| - 1] == s.data[|s.data| - 1];
      ret, v := ReadUnrolled32(s.data[s.p..]);
      ReadsFit(d, ret, v);
      s.p := s.p + ret;
    } else {
      ret, v := ReadSlow(s);
      Narrow(d, ret, v);
      v := U32(v);
    }
  }

  method ReadVarint64(s: Slice) returns (ret: nat, v: nat)
    requires s.Valid()
    modifies s`p
    ensures s.Valid() && s.p == old(s.p) + ret && Reads64(old(s.Rest()), ret, v)
  {
    ghost var d := s.Rest();
    if s.p >= |s.data| {
      return 0, 0;
    }
    if s.data[s.p] < 0x80 {
      OneByte(d);
      s.p := s.p + 1;
      return 1, s.data[s.p - 1];
    }
    if |s.data| - s.p >= 10 || s.data[|s.data| - 1] < 0x80 {
      assert d[|d| - 1] == s.data[|s.data| - 1];
      ret, v := ReadUnrolled64(s.data[s.p..]);
      ReadsFit(d, ret, v);
      s.p := s.p + ret;
    } else {
      ret, v := ReadSlow(s);
    }
  }

  // ---- The unrolled writers ----

  ghost predicate Pending(v: nat, b: seq<byte>, n: nat) {
    Encode(v) == b + Encode(n)
  }

  lemma WriteStep(v: nat, b: seq<byte>, n: nat)
    requires Pending(v, b, n)
    ensures n < 0x80 ==> Encode(v) == b + [n]
    ensures n >= 0x80 ==> Pending(v, b + [n % 0x80 + 0x80], n / 0x80)
  {
    if n >= 0x80 {
      assert b + [n % 0x80 + 0x80] + Encode(n / 0x80) == b + Encode(n);
    }
  }

  // Four equal lines of the writers.
  method FourLines(ghost v: nat, b0: seq<byte>, n0: nat) returns (done: bool, b: seq<byte>, n: nat)
    requires Pending(v, b0, n0)
    ensures if done then b == Encode(v) else Pending(v, b, n) && n == n0 / 0x1000_0000
  {
    var p: nat;
    b, n := b0, n0;
    WriteStep(v, b, n);
    p, n := n % 0x80, n / 0x80;
    if n == 0 { return true, b + [p], 0; }
    b := b + [p + 0x80];
    WriteStep(v, b, n);
    p, n := n % 0x80, n / 0x80;
    if n == 0 { return true, b + [p], 0; }
    b := b + [p + 0x80];
    WriteStep(v, b, n);
    p, n := n % 0x80, n / 0x80;
    if n == 0 { return true, b + [p], 0; }
    b := b + [p + 0x80];
    WriteStep(v, b, n);
    p, n := n % 0x80, n / 0x80;
    if n == 0 { return true, b + [p], 0; }
    b := b + [p + 0x80];
    return false, b, n;
  }

  // pb_write32: the fifth byte takes what is left.
  method Write32(v: nat) returns (b: seq<byte>)
    requires v < 0x1_0000_0000
    ensures b == Encode(v)
  {
    assert Pending(v, [], v);
    var done, n;
    done, b, n := FourLines(v, [], v);
    if !done {
      WriteStep(v, b, n);
      b := b + [n];
    }
  }

  // pb_write64: the tenth byte takes one bit.
  method Write64(v: nat) returns (b: seq<byte>)
    requires v < 0x1_0000_0000_0000_0000
    ensures b == Encode(v)
  {
    assert Pending(v, [], v);
    var done, n;
    done, b, n := FourLines(v, [], v);
    if done { return; }
    done, b, n := FourLines(v, b, n);
    if done { return; }
    WriteStep(v, b, n);
    var p := n % 0x80;
    n := n / 0x80;
    if n == 0 { return b + [p]; }
    b := b + [p + 0x80];
    WriteStep(v, b, n);
    p := n % 0x80;
    return b + [p];
  }

  // Reading what was written returns the value and its length.
  lemma ReadWhatWasWritten(v: nat, rest: seq<byte>)
    requires v < 0x1_0000_0000_0000_0000
    ensures Reads64(Encode(v) + rest, |Encode(v)|, v)
    ensures v < 0x1_0000_0000 ==> Reads32(Encode(v) + rest, |Encode(v)|, v)
  {
    TenGroups();
    DecodeEncode(v, rest, 10);
    assert Decode(Encode(v) + rest, 10) == Some(Read(v, |Encode(v)|));
  }

  // ---- Fixed-size numbers ----

  // The k low bytes of n, least significant first.
  function Fixed(n: nat, k: nat): (b: seq<byte>)
    ensures |b| == k
  {
    if k == 0 then [] else [n % 0x100] + Fixed(n / 0x100, k - 1)
  }

  function FromFixed(b: seq<byte>): nat {
    if b == [] then 0 else b[0] + 0x100 * FromFixed(b[1..])
  }

  function Pow256(k: nat): nat {
    if k == 0 then 1 else 0x100 * Pow256(k - 1)
  }

  lemma Pow256Values()
    ensures Pow256(4) == 0x1_0000_0000 && Pow256(8) == 0x1_0000_0000_0000_0000
  {
    assert Pow256(2) == 0x1_0000 && Pow256(3) == 0x100 * Pow256(2);
    assert Pow256(4) == 0x100 * Pow256(3) && Pow256(5) == 0x100 * Pow256(4);
    assert Pow256(6) == 0x100 * Pow256(5) && Pow256(7) == 0x100 * Pow256(6);
  }

  lemma {:induction false} FixedRoundTrip(n: nat, k: nat)
    requires n < Pow256(k)
    ensures FromFixed(Fixed(n, k)) == n
  {
    if k > 0 {
      FixedRoundTrip(n / 0x100, k - 1);
      assert Fixed(n, k)[1..] == Fixed(n / 0x100, k - 1);
    }
  }

  lemma {:induction false} FromFixedBound(b: seq<byte>)
    ensures FromFixed(b) < Pow256(|b|)
  {
    if b != [] {
      FromFixedBound(b[1..]);
    }
  }

  // pb_readfixed32 (k = 4) and pb_readfixed64 (k = 8): from the last byte to the first.
  method ReadFixed(s: Slice, k: nat) returns (ret: nat, v: nat)
    requires s.Valid() && k > 0
    modifies s`p
    ensures s.Valid() && s.p == old(s.p) + ret
    ensures |old(s.Rest())| < k ==> ret == 0
    ensures |old(s.Rest())| >= k ==> ret == k && v == FromFixed(old(s.Rest())[..k]) < Pow256(k)
  {
    v := 0;
    if s.p + k > |s.data| {
      return 0, 0;
    }
    ghost var d := s.Rest()[..k];
    var i := k;
    while i > 0
      invariant 0 <= i <= k && v == FromFixed(d[i..])
    {
      i := i - 1;
      assert d[i..][1..] == d[i + 1..] && d[i] == s.data[s.p + i];
      v := v * 0x100 + s.data[s.p + i];
    }
    FromFixedBound(d);
    s.p := s.p + k;
    return k, v;
  }
}
