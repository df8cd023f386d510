/** The byte buffer of the configuration codec: integers in classes of one to nine bytes, told apart
    by the first byte, over a buffer that compacts and grows.
 */
module LubanBuf {
  import opened Common
  import opened Modular
  import opened Words
  import opened Varint

  const INIT_CAPACITY: nat := 16

  // `x >> 8 * k`
  function Shr(x: nat, k: nat): nat {
    if k == 0 then x else Shr(x / 0x100, k - 1)
  }

  // The low k bytes of x, most significant first.
  function Big(x: nat, k: nat): (b: seq<byte>)
    ensures |b| == k
  {
    if k == 0 then [] else Big(x / 0x100, k - 1) + [x % 0x100]
  }

  function FromBig(b: seq<byte>): nat {
    if b == [] then 0 else FromBig(b[..|b| - 1]) * 0x100 + b[|b| - 1]
  }

  function Shl(x: nat, k: nat): nat {
    if k == 0 then x else 0x100 * Shl(x, k - 1)
  }

  // ---- The classes ----

  // The number of bytes of x.
  function Class(x: nat): nat {
    if x < 0x80 then 1
    else if x < 0x4000 then 2
    else if x < 0x20_0000 then 3
    else if x < 0x1000_0000 then 4
    else if x < 0x8_0000_0000 then 5
    else if x < 0x400_0000_0000 then 6
    else if x < 0x2000_0000_0000 then 7
    else if x < 0x100_0000_0000_0000 then 8
    else 9
  }

  // The first byte of a class, before the top bits of the number are added.
  function Head(n: nat): (h: byte) {
    match n
    case 1 => 0
    case 2 => 0x80
    case 3 => 0xc0
    case 4 => 0xe0
    case 5 => 0xf0
    case 6 => 0xf8
    case 7 => 0xfc
    case 8 => 0xfe
    case _ => 0xff
  }

  // The class that a first byte announces.
  function ClassOf(h: byte): nat {
    if h < 0x80 then 1
    else if h < 0xc0 then 2
    else if h < 0xe0 then 3
    else if h < 0xf0 then 4
    else if h < 0xf8 then 5
    else if h < 0xfc then 6
    else if h < 0xfe then 7
    else if h < 0xff then 8
    else 9
  }

  lemma {:induction false} ShrBound(x: nat, k: nat, c: nat)
    requires x < Shl(c, k)
    ensures Shr(x, k) < c
  {
    if k > 0 {
      ShrBound(x / 0x100, k - 1, c);
    }
  }

  // How many values the top bits in the first byte of a class can take.
  function Room(n: nat): nat {
    match n
    case 1 => 0x80
    case 2 => 0x40
    case 3 => 0x20
    case 4 => 0x10
    case 5 => 8
    case 6 => 4
    case _ => 1
  }

  lemma ClassBound(x: nat)
    requires Class(x) < 9
    ensures x < Shl(Room(Class(x)), Class(x) - 1)
  {
    assert Shl(0x40, 1) == 0x4000;
    assert Shl(0x20, 2) == 0x100 * Shl(0x20, 1);
    assert Shl(0x10, 3) == 0x100 * Shl(0x10, 2) && Shl(0x10, 2) == 0x100 * Shl(0x10, 1);
    assert Shl(8, 4) == 0x100 * Shl(8, 3) && Shl(8, 3) == 0x100 * Shl(8, 2) && Shl(8, 2) == 0x100 * Shl(8, 1);
    assert Shl(4, 5) == 0x100 * Shl(4, 4) && Shl(4, 4) == 0x100 * Shl(4, 3) && Shl(4, 3) == 0x100 * Shl(4, 2);
    assert Shl(4, 2) == 0x100 * Shl(4, 1);
    assert Shl(1, 7) == 0x100 * Shl(1, 6) && Shl(1, 6) == 0x100 * Shl(1, 5) && Shl(1, 5) == 0x100 * Shl(1, 4);
    assert Shl(1, 4) == 0x100 * Shl(1, 3) && Shl(1, 3) == 0x100 * Shl(1, 2) && Shl(1, 2) == 0x100 * Shl(1, 1);
  }

  // The top bits fit into the first byte without changing its class.
  lemma TopBitsFit(x: nat)
    requires x < 0x1_0000_0000_0000_0000
    ensures var n := Class(x);
            n < 9 ==> Head(n) as int + Shr(x, n - 1) < 0x100 && ClassOf(Head(n) as int + Shr(x, n - 1)) == n
  {
    var n := Class(x);
    if n < 9 {
      ClassBound(x);
      ShrBound(x, n - 1, Room(n));
    }
  }

  // ---- Encoding and decoding ----

  // writeUlong: the first byte has the class and the top bits.
  function UlongBytes(x: nat): (b: seq<byte>)
    requires x < 0x1_0000_0000_0000_0000
    ensures |b| == Class(x)
  {
    TopBitsFit(x);
    var n := Class(x);
    var h: nat := if n < 9 then Head(n) as int + Shr(x, n - 1) else 0xff;
    [h] + Big(x, n - 1)
  }

  // readUlong
  function ReadUlong(b: seq<byte>): (r: Option<Got<nat>>)
    ensures r.Some? ==> 0 < r.value.size <= |b|
  {
    if b == [] then None
    else
      var n := ClassOf(b[0]);
      if |b| < n then None
      else Some(Got(Shl(b[0] as int - Head(n) as int, n - 1) + FromBig(b[1..n]), n))
  }

  // writeUint: as writeUlong, but five bytes are the largest class.
  function UintBytes(x: nat): (b: seq<byte>)
    requires x < 0x1_0000_0000
  {
    var n := Class(x);
    TopBitsFit(x);
    if n < 5 then
      var h: nat := Head(n) as int + Shr(x, n - 1);
      [h] + Big(x, n - 1)
    else [0xf0] + Big(x, 4)
  }

  // readUint: from 0xf0 on the first byte says nothing more.
  function ReadUint(b: seq<byte>): (r: Option<Got<nat>>)
    ensures r.Some? ==> 0 < r.value.size <= |b|
  {
    if b == [] then None
    else
      var n := if b[0] < 0xf0 then ClassOf(b[0]) else 5;
      if |b| < n then None
      else if n < 5 then Some(Got(Shl(b[0] as int - Head(n) as int, n - 1) + FromBig(b[1..n]), n))
      else Some(Got(FromBig(b[1..5]), 5))
  }

  lemma {:induction false} BigSplit(x: nat, k: nat)
    ensures Shl(Shr(x, k), k) + FromBig(Big(x, k)) == x
  {
    if k > 0 {
      BigSplit(x / 0x100, k - 1);
      var b := Big(x, k);
      assert b[..|b| - 1] == Big(x / 0x100, k - 1);
    }
  }

  lemma {:induction false} ShlOfNothing(k: nat)
    ensures Shl(0, k) == 0
  {
    if k > 0 {
      ShlOfNothing(k - 1);
    }
  }

  // Every number comes back, whatever follows it.
  lemma UlongRoundTrip(x: nat, rest: seq<byte>)
    requires x < 0x1_0000_0000_0000_0000
    ensures ReadUlong(UlongBytes(x) + rest) == Some(Got(x, Class(x)))
  {
    var n, b := Class(x), UlongBytes(x) + rest;
    TopBitsFit(x);
    assert b[1..n] == Big(x, n - 1);
    BigSplit(x, n - 1);
    if n == 9 {
      NineBytes(x);
      ShlOfNothing(8);
    }
  }

  lemma NineBytes(x: nat)
    requires x < 0x1_0000_0000_0000_0000
    ensures Shr(x, 8) == 0
  {
    assert Shl(1, 8) == 0x100 * Shl(1, 7) && Shl(1, 7) == 0x100 * Shl(1, 6) && Shl(1, 6) == 0x100 * Shl(1, 5);
    assert Shl(1, 5) == 0x100 * Shl(1, 4) && Shl(1, 4) == 0x100 * Shl(1, 3) && Shl(1, 3) == 0x100 * Shl(1, 2);
    assert Shl(1, 2) == 0x100 * Shl(1, 1);
    ShrBound(x, 8, 1);
  }

  // The two writers agree on 32-bit numbers, so the 64-bit reader takes what either wrote.
  lemma UintIsUlong(x: nat)
    requires x < 0x1_0000_0000
    ensures UintBytes(x) == UlongBytes(x)
  {
    if Class(x) == 5 {
      assert Shl(1, 4) == 0x100 * Shl(1, 3) && Shl(1, 3) == 0x100 * Shl(1, 2) && Shl(1, 2) == 0x100 * Shl(1, 1);
      ShrBound(x, 4, 1);
    }
  }

  lemma UintRoundTrip(x: nat, rest: seq<byte>)
    requires x < 0x1_0000_0000
    ensures ReadUint(UintBytes(x) + rest) == Some(Got(x, |UintBytes(x)|))
    ensures ReadUlong(UintBytes(x) + rest) == Some(Got(x, |UintBytes(x)|))
  {
    UintIsUlong(x);
    UlongRoundTrip(x, rest);
    TopBitsFit(x);
    var n, b := Class(x), UintBytes(x) + rest;
    assert b[1..n] == Big(x, n - 1);
    if n == 5 {
      BigSplit(x, 4);
      assert Shl(1, 4) == 0x100 * Shl(1, 3) && Shl(1, 3) == 0x100 * Shl(1, 2) && Shl(1, 2) == 0x100 * Shl(1, 1);
      ShrBound(x, 4, 1);
      ShlOfNothing(4);
    }
  }

  // ---- Order ----

  // a comes before b at their first difference, and neither is a prefix of the other.
  ghost predicate Before(a: seq<byte>, b: seq<byte>) {
    exists i :: DiffersAt(a, b, i)
  }

  ghost predicate DiffersAt(a: seq<byte>, b: seq<byte>, i: nat) {
    i < |a| && i < |b| && a[..i] == b[..i] && a[i] < b[i]
  }

  lemma {:induction false} BigOrder(x: nat, y: nat, k: nat)
    requires x < y && Shr(x, k) == Shr(y, k)
    ensures Before(Big(x, k), Big(y, k))
  {
    if k > 0 {
      var a, b := Big(x / 0x100, k - 1), Big(y / 0x100, k - 1);
      if x / 0x100 < y / 0x100 {
        BigOrder(x / 0x100, y / 0x100, k - 1);
        var i: nat :| DiffersAt(a, b, i);
        assert Big(x, k)[..i] == a[..i] && Big(y, k)[..i] == b[..i];
        assert DiffersAt(Big(x, k), Big(y, k), i);
      } else {
        assert DiffersAt(Big(x, k), Big(y, k), k - 1);
      }
    }
  }

  lemma {:induction false} ShrOrder(x: nat, y: nat, k: nat)
    requires x <= y
    ensures Shr(x, k) <= Shr(y, k)
  {
    if k > 0 {
      ShrOrder(x / 0x100, y / 0x100, k - 1);
    }
  }

  // The encodings of different numbers are ordered as the numbers are; in particular none is a
  // prefix of another.
  lemma UlongOrder(x: nat, y: nat)
    requires x < y < 0x1_0000_0000_0000_0000
    ensures Before(UlongBytes(x), UlongBytes(y))
    ensures !(UlongBytes(x) <= UlongBytes(y)) && !(UlongBytes(y) <= UlongBytes(x))
  {
    var a, b := UlongBytes(x), UlongBytes(y);
    TopBitsFit(x);
    TopBitsFit(y);
    if Class(x) == 9 {
      NineBytes(x);
      NineBytes(y);
    }
    if Class(x) == Class(y) && Shr(x, Class(x) - 1) == Shr(y, Class(x) - 1) {
      BigOrder(x, y, Class(x) - 1);
      var i: nat :| DiffersAt(Big(x, Class(x) - 1), Big(y, Class(x) - 1), i);
      AfterHead(a[0], Big(x, Class(x) - 1), Big(y, Class(x) - 1), i);
      assert DiffersAt(a, b, i + 1);
    } else {
      ShrOrder(x, y, Class(x) - 1);
      assert a[0] < b[0];
      assert DiffersAt(a, b, 0);
    }
    BeforeIsNoPrefix(a, b);
  }

  lemma AfterHead(h: byte, a: seq<byte>, b: seq<byte>, i: nat)
    requires DiffersAt(a, b, i)
    ensures DiffersAt([h] + a, [h] + b, i + 1)
  {
    assert ([h] + a)[..i + 1] == [h] + a[..i] && ([h] + b)[..i + 1] == [h] + b[..i];
  }

  lemma BeforeIsNoPrefix(a: seq<byte>, b: seq<byte>)
    requires Before(a, b)
    ensures !(a <= b) && !(b <= a)
  {
    var i: nat :| DiffersAt(a, b, i);
    assert a[i] != b[i];
  }

  // ---- Shorts ----

  // writeShort: one byte, two bytes, or 0xff and two bytes.
  function ShortBytes(x: int): seq<byte>
    requires -0x8000 <= x < 0x8000
  {
    if 0 <= x < 0x80 then [x]
    else if 0 <= x < 0x4000 then var h: nat := x / 0x100 + 0x80; [h] + Big(x, 1)
    else [0xff] + Big(if x < 0 then x + 0x1_0000 else x, 2)
  }

  // readShort: first bytes from 0xc0 to 0xfe are errors.
  function ReadShort(b: seq<byte>): (r: Option<Got<int>>)
    ensures r.Some? ==> 0 < r.value.size <= |b|
  {
    if b == [] then None
    else if b[0] < 0x80 then Some(Got(b[0], 1))
    else if b[0] < 0xc0 then
      if |b| < 2 then None else Some(Got(b[0] as int % 0x40 * 0x100 + b[1], 2))
    else if b[0] == 0xff then
      if |b| < 3 then None
      else
        var x: int := b[1] as int * 0x100 + b[2];
        Some(Got(if x < 0x8000 then x else x - 0x1_0000, 3))
    else None
  }

  lemma ShortRoundTrip(x: int, rest: seq<byte>)
    requires -0x8000 <= x < 0x8000
    ensures ReadShort(ShortBytes(x) + rest) == Some(Got(x, |ShortBytes(x)|))
  {
    var u := if x < 0 then x + 0x1_0000 else x;
    assert Big(u, 2) == Big(u / 0x100, 1) + [u % 0x100];
    assert Big(u / 0x100, 1) == Big(u / 0x1_0000, 0) + [u / 0x100 % 0x100];
    assert Big(u, 1) == [u % 0x100];
  }

  // ---- The other integers ----

  lemma {:induction false} FromBigBound(b: seq<byte>)
    ensures FromBig(b) < Shl(1, |b|)
  {
    if b != [] {
      FromBigBound(b[..|b| - 1]);
    }
  }

  lemma {:induction false} ShlAdds(x: nat, y: nat, k: nat)
    ensures Shl(x + y, k) == Shl(x, k) + Shl(y, k)
  {
    if k > 0 {
      ShlAdds(x, y, k - 1);
    }
  }

  lemma {:induction false} ShlGrows(x: nat, y: nat, k: nat)
    requires x <= y
    ensures Shl(x, k) <= Shl(y, k)
  {
    if k > 0 {
      ShlGrows(x, y, k - 1);
    }
  }

  lemma ClassValueBound(top: nat, low: seq<byte>)
    ensures Shl(top, |low|) + FromBig(low) < Shl(top + 1, |low|)
  {
    FromBigBound(low);
    ShlAdds(top, 1, |low|);
  }

  lemma ShlValues()
    ensures Shl(0x80, 0) == 0x80 && Shl(0x40, 1) == 0x4000 && Shl(0x20, 2) == 0x20_0000
    ensures Shl(0x10, 3) == 0x1000_0000 && Shl(1, 4) == 0x1_0000_0000
  {
    assert Shl(0x20, 2) == 0x100 * Shl(0x20, 1);
    assert Shl(0x10, 3) == 0x100 * Shl(0x10, 2) && Shl(0x10, 2) == 0x100 * Shl(0x10, 1);
    assert Shl(1, 4) == 0x100 * Shl(1, 3) && Shl(1, 3) == 0x100 * Shl(1, 2) && Shl(1, 2) == 0x100 * Shl(1, 1);
  }

  // The classes of one to four bytes hold less than 2^28, the class of five any 32-bit number.
  lemma UintBound(b: seq<byte>)
    requires ReadUint(b).Some?
    ensures ReadUint(b).value.value < if b[0] < 0xf0 then 0x1000_0000 else 0x1_0000_0000
  {
    ShlValues();
    if b[0] < 0xf0 {
      var n := ClassOf(b[0]);
      ClassValueBound(b[0] as int - Head(n) as int, b[1..n]);
      ShlGrows(b[0] as int - Head(n) as int + 1, Room(n), n - 1);
    } else {
      FromBigBound(b[1..5]);
    }
  }

  lemma UlongBound(b: seq<byte>)
    requires ReadUlong(b).Some?
    ensures ReadUlong(b).value.value < 0x1_0000_0000_0000_0000
  {
    LongShlValues();
    var n := ClassOf(b[0]);
    var top := b[0] as int - Head(n) as int;
    ClassValueBound(top, b[1..n]);
    ShlGrows(top + 1, if n == 7 then 2 else Room(n), n - 1);
    ShlAdds(1, 1, 6);
  }

  lemma LongShlValues()
    ensures Shl(8, 4) == 0x8_0000_0000 && Shl(4, 5) == 0x400_0000_0000 && Shl(1, 6) == 0x1_0000_0000_0000
    ensures Shl(1, 7) == 0x100_0000_0000_0000 && Shl(1, 8) == 0x1_0000_0000_0000_0000
    ensures Shl(0x80, 0) == 0x80 && Shl(0x40, 1) == 0x4000 && Shl(0x20, 2) == 0x20_0000 && Shl(0x10, 3) == 0x1000_0000
  {
    ShlValues();
    assert Shl(8, 4) == 0x100 * Shl(8, 3) && Shl(8, 3) == 0x100 * Shl(8, 2) && Shl(8, 2) == 0x100 * Shl(8, 1);
    assert Shl(4, 5) == 0x100 * Shl(4, 4) && Shl(4, 4) == 0x100 * Shl(4, 3) && Shl(4, 3) == 0x100 * Shl(4, 2);
    assert Shl(4, 2) == 0x100 * Shl(4, 1);
    assert Shl(1, 8) == 0x100 * Shl(1, 7) && Shl(1, 7) == 0x100 * Shl(1, 6) && Shl(1, 6) == 0x100 * Shl(1, 5);
    assert Shl(1, 5) == 0x100 * Shl(1, 4);
  }

  // readInt and readSint; readLong and readSlong.
  function ReadInt(b: seq<byte>): (r: Option<Got<int>>)
    ensures r.Some? ==> Int32(r.value.value)
  {
    match ReadUint(b)
    case None => None
    case Some(g) =>
      UintBound(b);
      Some(Got(Signed32(g.value), g.size))
  }

  function ReadSint(b: seq<byte>): Option<Got<int>> {
    match ReadUint(b)
    case None => None
    case Some(g) =>
      UintBound(b);
      Some(Got(DecodeSint32(g.value), g.size))
  }

  function ReadLong(b: seq<byte>): Option<Got<int>> {
    match ReadUlong(b)
    case None => None
    case Some(g) =>
      UlongBound(b);
      Some(Got(Signed64(g.value), g.size))
  }

  function ReadSlong(b: seq<byte>): Option<Got<int>> {
    match ReadUlong(b)
    case None => None
    case Some(g) =>
      UlongBound(b);
      Some(Got(DecodeSint64(g.value), g.size))
  }

  // writeInt and writeSint come back, and so do writeLong and writeSlong.
  lemma IntRoundTrip(x: int, rest: seq<byte>)
    requires Int32(x)
    ensures ReadInt(UintBytes(U32(x)) + rest) == Some(Got(x, |UintBytes(U32(x))|))
    ensures EncodeSint32(x) < 0x1_0000_0000
    ensures ReadSint(UintBytes(EncodeSint32(x)) + rest) == Some(Got(x, |UintBytes(EncodeSint32(x))|))
  {
    Signed32OfU32(x);
    UintRoundTrip(U32(x), rest);
    Sint32RoundTrip(x, 0);
    UintRoundTrip(EncodeSint32(x), rest);
  }

  lemma LongRoundTrip(x: int, rest: seq<byte>)
    requires Int64(x)
    ensures ReadLong(UlongBytes(U64(x)) + rest) == Some(Got(x, |UlongBytes(U64(x))|))
    ensures EncodeSint64(x) < 0x1_0000_0000_0000_0000
    ensures ReadSlong(UlongBytes(EncodeSint64(x)) + rest) == Some(Got(x, |UlongBytes(EncodeSint64(x))|))
  {
    Signed64OfU64(x);
    UlongRoundTrip(U64(x), rest);
    Sint64RoundTrip(x, 0);
    UlongRoundTrip(EncodeSint64(x), rest);
  }

  // writeFshort, writeFint and writeFlong copy the 2, 4 or 8 bytes of a number as they lie in memory,
  // least significant first.
  function FixedBytes(x: int, k: nat): (b: seq<byte>)
    ensures |b| == k
  {
    Pow256Positive(k);
    Fixed(Wrap(x, Pow256(k)), k)
  }

  function ReadFixedInt(b: seq<byte>, k: nat): Option<Got<int>> {
    if |b| < k then None
    else
      var u := FromFixed(b[..k]);
      Some(Got(if 2 * u < Pow256(k) then u else u - Pow256(k), k))
  }

  lemma {:induction false} Pow256Positive(k: nat)
    ensures Pow256(k) > 0
  {
    if k > 0 {
      Pow256Positive(k - 1);
    }
  }

  lemma FixedIntRoundTrip(x: int, k: nat, rest: seq<byte>)
    requires -(Pow256(k) as int) <= 2 * x < Pow256(k)
    ensures ReadFixedInt(FixedBytes(x, k) + rest, k) == Some(Got(x, k))
  {
    Pow256Positive(k);
    var m := Pow256(k);
    WrapIsUnique(x, if x < 0 then -1 else 0, if x < 0 then x + m else x, m);
    FixedRoundTrip(Wrap(x, m), k);
    assert (FixedBytes(x, k) + rest)[..k] == FixedBytes(x, k);
  }

  // ---- Sizes and what follows them ----

  // Index arithmetic of 32-bit ints; an overflow, undefined in the source, wraps around.
  function Sum(a: int, b: int): int { Signed32(U32(a + b)) }

  lemma SumIs(a: int, b: int)
    ensures Int32(a + b) ==> Sum(a, b) == a + b
    ensures 0x8000_0000 <= a + b < 0x1_0000_0000 ==> Sum(a, b) == a + b - 0x1_0000_0000
  {
    if Int32(a + b) {
      Signed32OfU32(a + b);
    }
  }

  // A buffer in use: c is what is readable, and it starts at index begin. Nine bytes more never
  // overflow an index.
  const MAX_POS: int := 0x7fff_fff6

  predicate InUse(c: seq<byte>, begin: int) { 0 <= begin && begin + |c| <= MAX_POS }

  // Whether a size of 2^31 or more is next, by its first two bytes.
  predicate HugeSize(c: seq<byte>) { |c| >= 5 && c[0] >= 0xf0 && c[1] >= 0x80 }

  lemma HugeSizeIsNegative(c: seq<byte>)
    ensures HugeSize(c) <==> ReadUint(c).Some? && ReadUint(c).value.value >= 0x8000_0000
    ensures HugeSize(c) <==> ReadInt(c).Some? && ReadInt(c).value.value < 0
  {
    if ReadUint(c).Some? {
      UintBound(c);
      if c[0] >= 0xf0 {
        FromBigTop(c[1..5]);
      }
    }
  }

  lemma FromBigTop(b: seq<byte>)
    requires |b| == 4
    ensures FromBig(b) == b[0] as int * 0x100_0000 + b[1] as int * 0x1_0000 + b[2] as int * 0x100 + b[3]
  {
    var b3, b2, b1 := b[..3], b[..2], b[..1];
    assert b3[..2] == b2 && b2[..1] == b1 && b1[..0] == [];
    assert FromBig(b1) == b[0];
    assert FromBig(b2) == FromBig(b1) * 0x100 + b[1];
    assert FromBig(b3) == FromBig(b2) * 0x100 + b[2];
  }

  datatype UnmarshalError = OK | NOT_ENOUGH | EXCEED_SIZE

  // The result of TryInplaceUnmarshalBuf, the read index after it, and the bounds of the record.
  datatype Unmarshalled = Unmarshalled(error: UnmarshalError, index: int, bodyBegin: int, bodyEnd: int)

  // readSize stores the unsigned number in an int.
  function Unmarshal(c: seq<byte>, begin: int, maxSize: int): Unmarshalled {
    match ReadInt(c)
    case None => Unmarshalled(NOT_ENOUGH, begin, 0, 0)
    case Some(g) =>
      if g.value > maxSize then Unmarshalled(EXCEED_SIZE, begin, 0, 0)
      else if |c| - g.size < g.value then Unmarshalled(NOT_ENOUGH, begin, 0, 0)
      else Unmarshalled(OK, begin + g.size + g.value, begin + g.size, begin + g.size + g.value)
  }

  // What it is meant to do: a record of at most maxSize bytes is delimited and passed, and a failure
  // leaves the index alone.
  predicate TakesRecord(c: seq<byte>, begin: int, maxSize: int, r: Unmarshalled) {
    match ReadUint(c)
    case None => r == Unmarshalled(NOT_ENOUGH, begin, 0, 0)
    case Some(g) =>
      if g.value > maxSize then r == Unmarshalled(EXCEED_SIZE, begin, 0, 0)
      else if g.size + g.value > |c| then r == Unmarshalled(NOT_ENOUGH, begin, 0, 0)
      else r == Unmarshalled(OK, begin + g.size + g.value, begin + g.size, begin + g.size + g.value)
  }

  /** It does so if and only if the size is below 2^31, or is refused as a negative number. */
  lemma RecordIffSizeIsSmall(c: seq<byte>, begin: int, maxSize: int)
    requires InUse(c, begin) && Int32(maxSize)
    ensures TakesRecord(c, begin, maxSize, Unmarshal(c, begin, maxSize)) <==>
            !HugeSize(c) || ReadInt(c).value.value > maxSize
    ensures maxSize >= 0 ==> (TakesRecord(c, begin, maxSize, Unmarshal(c, begin, maxSize)) <==> !HugeSize(c))
  {
    HugeSizeIsNegative(c);
    if ReadUint(c).Some? {
      UintBound(c);
    }
  }

  // Otherwise the read index runs backwards: here to -2147483643, and the result is OK.
  lemma HugeRecordIsAccepted()
    ensures var c: seq<byte> := [0xf0, 0x80, 0, 0, 0];
            Unmarshal(c, 0, 1000) == Unmarshalled(OK, -2147483643, 5, -2147483643)
    ensures !TakesRecord([0xf0, 0x80, 0, 0, 0], 0, 1000, Unmarshal([0xf0, 0x80, 0, 0, 0], 0, 1000))
  {
    var c: seq<byte> := [0xf0, 0x80, 0, 0, 0];
    FromBigTop(c[1..5]);
    assert ReadUint(c) == Some(Got(0x8000_0000, 5));
  }

  // How readString can end, and the read index after it. With a huge size the string cannot be
  // resized; with an index that overflows, memory behind the buffer is read.
  datatype StringRead =
    | Failed(index: int)
    | Returned(s: seq<byte>, index: int)
    | Thrown(index: int)
    | Overrun(index: int)

  function ReadStringAt(c: seq<byte>, begin: int): StringRead {
    match ReadInt(c)
    case None => Failed(begin)
    case Some(g) =>
      var p := begin + g.size;
      if Sum(p, g.value) > begin + |c| then Failed(p)
      else if g.value < 0 then Thrown(p)
      else if g.size + g.value <= |c| then Returned(c[g.size..g.size + g.value], p + g.value)
      else Overrun(Sum(p, g.value))
  }

  // What readString is meant to do; if the bytes are not all there, the size has been consumed.
  predicate TakesString(c: seq<byte>, begin: int, r: StringRead) {
    match ReadUint(c)
    case None => r == Failed(begin)
    case Some(g) =>
      if g.size + g.value <= |c| then r == Returned(c[g.size..g.size + g.value], begin + g.size + g.value)
      else r == Failed(begin + g.size)
  }

  // skipBytes: whether it succeeded, and the read index.
  function Skipped(c: seq<byte>, begin: int): (bool, int) {
    match ReadInt(c)
    case None => (false, begin)
    case Some(g) =>
      var end := Sum(begin + g.size, g.value);
      if end > begin + |c| then (false, begin) else (true, end)
  }

  predicate SkipsString(c: seq<byte>, begin: int, r: (bool, int)) {
    match ReadUint(c)
    case None => r == (false, begin)
    case Some(g) => r == if g.size + g.value <= |c| then (true, begin + g.size + g.value) else (false, begin)
  }

  // The end of what the size announces is a 32-bit index.
  predicate EndFits(c: seq<byte>, begin: int) {
    ReadUint(c).Some? ==> begin + ReadUint(c).value.size + ReadUint(c).value.value < 0x8000_0000
  }

  /** readString and skipBytes do what they should if and only if the announced end fits an index. */
  lemma StringIffEndFits(c: seq<byte>, begin: int)
    requires InUse(c, begin)
    ensures TakesString(c, begin, ReadStringAt(c, begin)) <==> EndFits(c, begin)
    ensures SkipsString(c, begin, Skipped(c, begin)) <==> EndFits(c, begin)
  {
    if ReadUint(c).Some? {
      var g := ReadUint(c).value;
      UintBound(c);
      SumIs(begin + g.size, Signed32(g.value));
    }
  }

  /** A failed readString leaves the index alone exactly if it could not even read the size; a failed
      skipBytes or TryInplaceUnmarshalBuf always does. */
  // Otherwise the string is announced with a negative size, or its end lies before its start.
  lemma HugeStringIsThrown()
    ensures ReadStringAt([0xf0, 0x80, 0, 0, 0], 0) == Thrown(5)
    ensures Skipped([0xf0, 0x80, 0, 0, 0], 0) == (true, -2147483643)
  {
    FromBigTop([0xf0, 0x80, 0, 0, 0][1..5]);
    assert ReadUint([0xf0, 0x80, 0, 0, 0]) == Some(Got(0x8000_0000, 5));
  }

  lemma LargeStringOverruns()
    ensures ReadStringAt([0xf0, 0x7f, 0xff, 0xff, 0xff], 0) == Overrun(-2147483644)
    ensures Skipped([0xf0, 0x7f, 0xff, 0xff, 0xff], 0) == (true, -2147483644)
  {
    FromBigTop([0xf0, 0x7f, 0xff, 0xff, 0xff][1..5]);
    assert ReadUint([0xf0, 0x7f, 0xff, 0xff, 0xff]) == Some(Got(0x7fff_ffff, 5));
  }

  lemma FailureAndTheIndex(c: seq<byte>, begin: int, maxSize: int)
    ensures ReadStringAt(c, begin).Failed? ==> (ReadStringAt(c, begin).index == begin <==> ReadUint(c) == None)
    ensures !Skipped(c, begin).0 ==> Skipped(c, begin).1 == begin
    ensures Unmarshal(c, begin, maxSize).error != OK ==> Unmarshal(c, begin, maxSize).index == begin
  {
  }

  // What writeString wrote is a record and a string that the readers take apart.
  lemma StringRoundTrip(s: seq<byte>, rest: seq<byte>, begin: int, maxSize: int)
    requires |s| < 0x8000_0000 && |s| <= maxSize && Int32(maxSize)
    requires InUse(UintBytes(|s|) + s + rest, begin)
    ensures var c, n := UintBytes(|s|) + s + rest, |UintBytes(|s|)|;
            && ReadStringAt(c, begin) == Returned(s, begin + n + |s|)
            && Unmarshal(c, begin, maxSize) == Unmarshalled(OK, begin + n + |s|, begin + n, begin + n + |s|)
            && c[n..n + |s|] == s
  {
    var c, n := UintBytes(|s|) + s + rest, |UintBytes(|s|)|;
    UintRoundTrip(|s|, s + rest);
    assert c == UintBytes(|s|) + (s + rest);
    StringIffEndFits(c, begin);
    HugeSizeIsNegative(c);
    RecordIffSizeIsSmall(c, begin, maxSize);
    assert c[n..n + |s|] == s;
  }

  // ---- The buffer ----

  lemma SubSlice(s: seq<byte>, b: nat, e: nat, i: nat, j: nat)
    requires b <= e <= |s| && i <= j <= e - b
    ensures s[b..e][i..j] == s[b + i..b + j]
  {
    assert forall k | 0 <= k < j - i :: s[b..e][i..j][k] == s[b..e][i + k] == s[b + i + k] == s[b + i..b + j][k];
    assert |s[b..e][i..j]| == |s[b + i..b + j]|;
  }

  class ByteBuf {
    var data: array<byte>
    var beginPos: int
    var endPos: int

    ghost predicate Valid()
      reads this
    {
      0 <= beginPos <= endPos <= data.Length < 0x8000_0000 && endPos <= MAX_POS
    }

    ghost function Contents(): seq<byte>
      requires Valid()
      reads this, data
    {
      data[beginPos..endPos]
    }

    // Room for `size` bytes can be made with 32-bit indexes and capacities.
    ghost predicate RoomFor(size: nat)
      reads this
    {
      endPos + size <= MAX_POS && endPos - beginPos + size <= 0x4000_0000
    }

    constructor ()
      ensures Valid() && Contents() == [] && fresh(data)
    {
      data := new byte[0];
      beginPos, endPos := 0, 0;
    }

    // calcNewCapacity: doubled until it is enough.
    static method CalcNewCapacity(initSize: nat, needSize: nat) returns (i: nat)
      requires initSize < needSize <= 0x4000_0000
      ensures needSize <= i < 0x8000_0000 && INIT_CAPACITY <= i && 2 * initSize <= i
      ensures i < 2 * needSize || i == 2 * initSize || i == INIT_CAPACITY
    {
      i := if 2 * initSize > INIT_CAPACITY then 2 * initSize else INIT_CAPACITY;
      while i < needSize
        invariant INIT_CAPACITY <= i < 0x8000_0000 && 2 * initSize <= i
        invariant i < 2 * needSize || i == 2 * initSize || i == INIT_CAPACITY
        decreases needSize - i
      {
        i := 2 * i;
      }
    }

    // Moves what is readable to the front, in the same array if it is large enough.
    method CompactOrResize(size: nat)
      requires Valid() && RoomFor(size)
      modifies this, data
      ensures Valid() && beginPos == 0 && endPos + size <= data.Length && RoomFor(size)
      ensures Contents() == old(Contents()) && (data == old(data) || fresh(data))
      ensures data == old(data) <==> old(endPos - beginPos) + size <= old(data.Length)
      ensures endPos <= old(endPos)
    {
      var remainSize := endPos - beginPos;
      var need := remainSize + size;
      var remain := data[beginPos..endPos];
      if need > data.Length {
        var capacity := CalcNewCapacity(data.Length, need);
        data := new byte[capacity](_ => 0);
      }
      CopyIn(data, 0, remain);
      beginPos, endPos := 0, remainSize;
    }

    method ReserveWrite(size: nat)
      requires Valid() && RoomFor(size)
      modifies this, data
      ensures Valid() && endPos + size <= data.Length && (data == old(data) || fresh(data)) && RoomFor(size)
      ensures Contents() == old(Contents()) && endPos <= old(endPos)
    {
      if endPos + size > data.Length {
        CompactOrResize(size);
      }
    }

    // reserveWrite, the stores, and the new write index: appendBuffer, and the end of every write.
    method Append(b: seq<byte>)
      requires Valid() && RoomFor(|b|)
      modifies this, data
      ensures Valid() && (data == old(data) || fresh(data))
      ensures Contents() == old(Contents()) + b
      ensures endPos <= old(endPos) + |b|
    {
      ReserveWrite(|b|);
      CopyIn(data, endPos, b);
      endPos := endPos + |b|;
    }

    method WriteUint(x: nat)
      requires Valid() && x < 0x1_0000_0000 && RoomFor(|UintBytes(x)|)
      modifies this, data
      ensures Valid() && (data == old(data) || fresh(data))
      ensures Contents() == old(Contents()) + UintBytes(x)
      ensures endPos <= old(endPos) + |UintBytes(x)|
    {
      Append(UintBytes(x));
    }

    method WriteUlong(x: nat)
      requires Valid() && x < 0x1_0000_0000_0000_0000 && RoomFor(Class(x))
      modifies this, data
      ensures Valid() && (data == old(data) || fresh(data))
      ensures Contents() == old(Contents()) + UlongBytes(x)
    {
      Append(UlongBytes(x));
    }

    method WriteShort(x: int)
      requires Valid() && -0x8000 <= x < 0x8000 && RoomFor(|ShortBytes(x)|)
      modifies this, data
      ensures Valid() && (data == old(data) || fresh(data))
      ensures Contents() == old(Contents()) + ShortBytes(x)
    {
      Append(ShortBytes(x));
    }

    // writeFshort, writeFint and writeFlong, with k == 2, 4 and 8.
    method WriteFixed(x: int, k: nat)
      requires Valid() && RoomFor(k)
      modifies this, data
      ensures Valid() && (data == old(data) || fresh(data))
      ensures Contents() == old(Contents()) + FixedBytes(x, k)
    {
      Append(FixedBytes(x, k));
    }

    method WriteInt(x: int)
      requires Valid() && Int32(x) && RoomFor(|UintBytes(U32(x))|)
      modifies this, data
      ensures Valid() && (data == old(data) || fresh(data))
      ensures Contents() == old(Contents()) + UintBytes(U32(x))
    {
      WriteUint(U32(x));
    }

    method WriteSint(x: int)
      requires Valid() && Int32(x) && EncodeSint32(x) < 0x1_0000_0000 && RoomFor(|UintBytes(EncodeSint32(x))|)
      modifies this, data
      ensures Valid() && (data == old(data) || fresh(data))
      ensures Contents() == old(Contents()) + UintBytes(EncodeSint32(x))
    {
      WriteUint(EncodeSint32(x));
    }

    method WriteLong(x: int)
      requires Valid() && Int64(x) && RoomFor(Class(U64(x)))
      modifies this, data
      ensures Valid() && (data == old(data) || fresh(data))
      ensures Contents() == old(Contents()) + UlongBytes(U64(x))
    {
      WriteUlong(U64(x));
    }

    method WriteSlong(x: int)
      requires Valid() && Int64(x) && EncodeSint64(x) < 0x1_0000_0000_0000_0000 && RoomFor(Class(EncodeSint64(x)))
      modifies this, data
      ensures Valid() && (data == old(data) || fresh(data))
      ensures Contents() == old(Contents()) + UlongBytes(EncodeSint64(x))
    {
      WriteUlong(EncodeSint64(x));
    }

    // A read did what its function says: the value and its bytes are taken, or nothing changed.
    ghost predicate Took<T(!new)>(spec: Option<Got<T>>, r: Option<T>, was: int, c: seq<byte>)
      reads this, data
    {
      && Valid()
      && match spec
         case None => r == None && beginPos == was && Contents() == c
         case Some(g) =>
           r == Some(g.value) && beginPos == was + g.size && g.size <= |c| && Contents() == c[g.size..]
    }

    // The number of n bytes that starts at the read index, after its first byte.
    method LowBytes(n: nat) returns (low: nat)
      requires Valid() && 0 < n <= endPos - beginPos
      ensures low == FromBig(Contents()[1..n])
    {
      SubSlice(data[..], beginPos, endPos, 1, n);
      assert data[..][beginPos..endPos] == Contents();
      low := FromBig(data[beginPos + 1..beginPos + n]);
      assert data[beginPos + 1..beginPos + n] == data[..][beginPos + 1..beginPos + n];
    }

    method ReadUintAt() returns (r: Option<nat>)
      requires Valid()
      modifies `beginPos
      ensures Took(ReadUint(old(Contents())), r, old(beginPos), old(Contents()))
    {
      if beginPos + 1 > endPos {
        return None;
      }
      var h := data[beginPos];
      assert h == Contents()[0];
      var n := if h < 0xf0 then ClassOf(h) else 5;
      if beginPos + n > endPos {
        return None;
      }
      var low := LowBytes(n);
      beginPos := beginPos + n;
      return Some(if n < 5 then Shl(h as int - Head(n) as int, n - 1) + low else low);
    }

    method ReadUlongAt() returns (r: Option<nat>)
      requires Valid()
      modifies `beginPos
      ensures Took(ReadUlong(old(Contents())), r, old(beginPos), old(Contents()))
    {
      if beginPos + 1 > endPos {
        return None;
      }
      var h := data[beginPos];
      assert h == Contents()[0];
      var n := ClassOf(h);
      if beginPos + n > endPos {
        return None;
      }
      var low := LowBytes(n);
      beginPos := beginPos + n;
      return Some(Shl(h as int - Head(n) as int, n - 1) + low);
    }

    method ReadShortAt() returns (r: Option<int>)
      requires Valid()
      modifies `beginPos
      ensures Took(ReadShort(old(Contents())), r, old(beginPos), old(Contents()))
    {
      if beginPos + 1 > endPos {
        return None;
      }
      var h := data[beginPos];
      assert h == Contents()[0];
      if h < 0x80 {
        beginPos := beginPos + 1;
        return Some(h);
      } else if h < 0xc0 {
        if beginPos + 2 > endPos {
          return None;
        }
        var x := h as int % 0x40 * 0x100 + data[beginPos + 1];
        assert data[beginPos + 1] == Contents()[1];
        beginPos := beginPos + 2;
        return Some(x);
      } else if h == 0xff {
        if beginPos + 3 > endPos {
          return None;
        }
        var x := data[beginPos + 1] as int * 0x100 + data[beginPos + 2];
        assert data[beginPos + 1] == Contents()[1] && data[beginPos + 2] == Contents()[2];
        beginPos := beginPos + 3;
        return Some(if x < 0x8000 then x else x - 0x1_0000);
      } else {
        return None;
      }
    }

    // readFshort, readFint and readFlong.
    method ReadFixedAt(k: nat) returns (r: Option<int>)
      requires Valid()
      modifies `beginPos
      ensures Took(ReadFixedInt(old(Contents()), k), r, old(beginPos), old(Contents()))
    {
      if beginPos + k > endPos {
        return None;
      }
      var b := data[beginPos..beginPos + k];
      assert b == Contents()[..k];
      var u := FromFixed(b);
      beginPos := beginPos + k;
      return Some(if 2 * u < Pow256(k) then u else u - Pow256(k));
    }

    method ReadIntAt() returns (r: Option<int>)
      requires Valid()
      modifies `beginPos
      ensures Took(ReadInt(old(Contents())), r, old(beginPos), old(Contents()))
    {
      var x := ReadUintAt();
      if x == None {
        return None;
      }
      UintBound(old(Contents()));
      return Some(Signed32(x.value));
    }

    method ReadSintAt() returns (r: Option<int>)
      requires Valid()
      modifies `beginPos
      ensures Took(ReadSint(old(Contents())), r, old(beginPos), old(Contents()))
    {
      var x := ReadUintAt();
      if x == None {
        return None;
      }
      UintBound(old(Contents()));
      return Some(DecodeSint32(x.value));
    }

    method ReadLongAt() returns (r: Option<int>)
      requires Valid()
      modifies `beginPos
      ensures Took(ReadLong(old(Contents())), r, old(beginPos), old(Contents()))
    {
      var x := ReadUlongAt();
      if x == None {
        return None;
      }
      UlongBound(old(Contents()));
      return Some(Signed64(x.value));
    }

    method ReadSlongAt() returns (r: Option<int>)
      requires Valid()
      modifies `beginPos
      ensures Took(ReadSlong(old(Contents())), r, old(beginPos), old(Contents()))
    {
      var x := ReadUlongAt();
      if x == None {
        return None;
      }
      UlongBound(old(Contents()));
      return Some(DecodeSint64(x.value));
    }

    // writeString and writeBytes: the size, then the bytes.
    method WriteString(s: seq<byte>)
      requires Valid() && |s| < 0x4000_0000 && RoomFor(|UintBytes(|s|)| + |s|)
      modifies this, data
      ensures Valid() && (data == old(data) || fresh(data))
      ensures Contents() == old(Contents()) + (UintBytes(|s|) + s)
    {
      ghost var c := Contents();
      WriteUint(|s|);
      if s != [] {
        assert |Contents()| == |c| + |UintBytes(|s|)|;
        Append(s);
      }
      assert (c + UintBytes(|s|)) + s == c + (UintBytes(|s|) + s);
    }

    // ensureRead; the sum may overflow.
    method EnsureRead(size: int) returns (ok: bool)
      ensures ok <==> Sum(beginPos, size) <= endPos
    {
      return Sum(beginPos, size) <= endPos;
    }

    // readString; bytes read behind the buffer are not part of this model.
    method ReadString() returns (r: StringRead)
      requires Valid()
      modifies `beginPos
      ensures r == ReadStringAt(old(Contents()), old(beginPos)) && beginPos == r.index
    {
      ghost var c := Contents();
      var n := ReadIntAt();
      if n == None {
        return Failed(beginPos);
      }
      var ok := EnsureRead(n.value);
      if !ok {
        return Failed(beginPos);
      }
      if n.value < 0 {
        return Thrown(beginPos);
      }
      ghost var size := beginPos - old(beginPos);
      if beginPos + n.value > endPos {
        beginPos := Sum(beginPos, n.value);
        return Overrun(beginPos);
      }
      var s := data[beginPos..beginPos + n.value];
      SubSlice(data[..], old(beginPos), endPos, size, size + n.value);
      assert c == data[..][old(beginPos)..endPos] && s == data[..][beginPos..beginPos + n.value];
      beginPos := beginPos + n.value;
      return Returned(s, beginPos);
    }

    method SkipBytes() returns (ok: bool)
      requires Valid()
      modifies `beginPos
      ensures (ok, beginPos) == Skipped(old(Contents()), old(beginPos))
    {
      var oldReadIndex := beginPos;
      var n := ReadIntAt();
      if n == None {
        return false;
      }
      ok := EnsureRead(n.value);
      beginPos := if ok then Sum(beginPos, n.value) else oldReadIndex;
    }

    // The record, if there is one, is data[bodyBegin..bodyEnd]; the buffer is in order afterwards
    // unless the index has become negative.
    method TryInplaceUnmarshalBuf(maxSize: int) returns (e: UnmarshalError, bodyBegin: int, bodyEnd: int)
      requires Valid() && Int32(maxSize)
      modifies `beginPos
      ensures Unmarshalled(e, beginPos, bodyBegin, bodyEnd) == Unmarshal(old(Contents()), old(beginPos), maxSize)
      ensures Valid() <==> 0 <= beginPos
    {
      var oldReadIndex := beginPos;
      bodyBegin, bodyEnd := 0, 0;
      var n := ReadIntAt();
      if n == None {
        beginPos := oldReadIndex;
        return NOT_ENOUGH, bodyBegin, bodyEnd;
      }
      if n.value > maxSize {
        beginPos := oldReadIndex;
        return EXCEED_SIZE, bodyBegin, bodyEnd;
      }
      if endPos - beginPos < n.value {
        beginPos := oldReadIndex;
        return NOT_ENOUGH, bodyBegin, bodyEnd;
      }
      bodyBegin := beginPos;
      beginPos := beginPos + n.value;
      bodyEnd := beginPos;
      return OK, bodyBegin, bodyEnd;
    }
  }
}
