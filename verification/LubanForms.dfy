/** The configuration codec's integers byte by byte: how many bytes a number takes, what its first byte is, and
    what any bytes are read as, canonical or not.
 */
module LubanForms {
  import opened Common
  import opened Words
  import opened Varint
  import opened LubanBuf
  import opened Modular

  lemma {:induction false} FromBigCons(h: byte, r: seq<byte>)
    ensures FromBig([h] + r) == Shl(h, |r|) + FromBig(r)
  {
    var b := [h] + r;
    if r == [] {
      assert b[..0] == [];
    } else {
      FromBigCons(h, r[..|r| - 1]);
      assert b[..|b| - 1] == [h] + r[..|r| - 1];
      ShlCommutes(h, |r| - 1);
    }
  }

  lemma ShlCommutes(x: nat, k: nat)
    ensures Shl(x, k) * 0x100 == Shl(x, k + 1)
  {
  }

  lemma HeadValues()
    ensures Shl(0x80, 1) == 0x8000 && Shl(0xc0, 2) == 0xc0_0000 && Shl(0xe0, 3) == 0xe000_0000
    ensures Shl(0xf0, 4) == 0xf0_0000_0000 && Shl(0xf8, 5) == 0xf800_0000_0000
    ensures Shl(0xfc, 6) == 0xfc_0000_0000_0000 && Shl(0xfe, 7) == 0xfe00_0000_0000_0000
  {
    SmallShifts(0xc0);
    SmallShifts(0xe0);
    SmallShifts(0xf0);
    SmallShifts(0xf8);
    SmallShifts(0xfc);
    SmallShifts(0xfe);
  }

  // `x << 8 * k` for small k.
  lemma SmallShifts(x: nat)
    ensures Shl(x, 2) == 0x1_0000 * x && Shl(x, 3) == 0x100_0000 * x && Shl(x, 4) == 0x1_0000_0000 * x
    ensures Shl(x, 5) == 0x100_0000_0000 * x && Shl(x, 6) == 0x1_0000_0000_0000 * x
    ensures Shl(x, 7) == 0x100_0000_0000_0000 * x
  {
    assert Shl(x, 1) == 0x100 * x && Shl(x, 2) == 0x100 * Shl(x, 1) && Shl(x, 3) == 0x100 * Shl(x, 2);
    assert Shl(x, 4) == 0x100 * Shl(x, 3) && Shl(x, 5) == 0x100 * Shl(x, 4);
    assert Shl(x, 6) == 0x100 * Shl(x, 5) && Shl(x, 7) == 0x100 * Shl(x, 6);
  }

  // A number of a class of fewer than nine bytes, taken as a whole, is its head followed by the number.
  lemma WholeNumber(x: nat)
    requires x < 0x1_0000_0000_0000_0000 && Class(x) < 9
    ensures FromBig(UlongBytes(x)) == Shl(Head(Class(x)), Class(x) - 1) + x
  {
    var n := Class(x);
    TopBitsFit(x);
    FromBigCons(Head(n) as int + Shr(x, n - 1), Big(x, n - 1));
    ShlAdds(Head(n), Shr(x, n - 1), n - 1);
    BigSplit(x, n - 1);
  }

  /** A number takes one byte below 2^7, and one more for each power of two in this list; the bytes, most
      significant first, are the number with a mark of their count on top. */
  lemma UlongIsWritten(x: nat)
    requires x < 0x1_0000_0000_0000_0000
    ensures var b := UlongBytes(x);
            && (x < 0x80 ==> b == [x])
            && (0x80 <= x < 0x4000 ==> |b| == 2 && FromBig(b) == 0x8000 + x)
            && (0x4000 <= x < 0x20_0000 ==> |b| == 3 && FromBig(b) == 0xc0_0000 + x)
            && (0x20_0000 <= x < 0x1000_0000 ==> |b| == 4 && FromBig(b) == 0xe000_0000 + x)
            && (0x1000_0000 <= x < 0x8_0000_0000 ==> |b| == 5 && FromBig(b) == 0xf0_0000_0000 + x)
            && (0x8_0000_0000 <= x < 0x400_0000_0000 ==> |b| == 6 && FromBig(b) == 0xf800_0000_0000 + x)
            && (0x400_0000_0000 <= x < 0x2000_0000_0000 ==> |b| == 7 && FromBig(b) == 0xfc_0000_0000_0000 + x)
            && (0x2000_0000_0000 <= x < 0x100_0000_0000_0000 ==> |b| == 8 && FromBig(b) == 0xfe00_0000_0000_0000 + x)
            && (0x100_0000_0000_0000 <= x ==> |b| == 9 && b[0] == 0xff && FromBig(b[1..]) == x)
  {
    HeadValues();
    if Class(x) < 9 {
      WholeNumber(x);
    } else {
      NineBytes(x);
      BigSplit(x, 8);
      ShlOfNothing(8);
    }
  }

  // What remains of a first byte without the mark.
  lemma ReadWhole(b: seq<byte>)
    requires b != [] && ClassOf(b[0]) < 9 && |b| >= ClassOf(b[0])
    ensures var n := ClassOf(b[0]);
            Head(n) <= b[0] &&
            ReadUlong(b) == Some(Got(FromBig(b[..n]) - Shl(Head(n), n - 1), n))
  {
    var n := ClassOf(b[0]);
    assert b[..n] == [b[0]] + b[1..n];
    FromBigCons(b[0], b[1..n]);
    ShlAdds(Head(n), b[0] as int - Head(n) as int, n - 1);
  }

  // By its first byte: how many bytes a number has, and the mark on top of it.
  function Announced(h: byte): (nat, nat) {
    if h < 0x80 then (1, 0)
    else if h < 0xc0 then (2, 0x8000)
    else if h < 0xe0 then (3, 0xc0_0000)
    else if h < 0xf0 then (4, 0xe000_0000)
    else if h < 0xf8 then (5, 0xf0_0000_0000)
    else if h < 0xfc then (6, 0xf800_0000_0000)
    else if h < 0xfe then (7, 0xfc_0000_0000_0000)
    else if h < 0xff then (8, 0xfe00_0000_0000_0000)
    else (9, 0)
  }

  /** Any bytes are read as the number that is left when the mark is taken off, whether or not it would have
      been written so; too few bytes are no number. */
  lemma UlongIsRead(b: seq<byte>)
    ensures ReadUlong(b).Some? <==> b != [] && Announced(b[0]).0 <= |b|
    ensures ReadUlong(b).Some? ==>
              var (n, mark) := Announced(b[0]);
              ReadUlong(b).value.size == n &&
              ReadUlong(b).value.value == if n < 9 then FromBig(b[..n]) - mark else FromBig(b[1..9])
  {
    HeadValues();
    if b != [] && ClassOf(b[0]) <= |b| {
      if ClassOf(b[0]) < 9 {
        ReadWhole(b);
      } else {
        ShlOfNothing(8);
      }
    }
  }

  /** The 32-bit reader takes the same bytes for the same number up to four bytes; a first byte of 0xf0 or more
      announces four more, and says nothing else. */
  lemma UintIsRead(b: seq<byte>)
    ensures b != [] && b[0] < 0xf0 ==> ReadUint(b) == ReadUlong(b)
    ensures b != [] && b[0] >= 0xf0 ==>
              ReadUint(b) == if |b| < 5 then None else Some(Got(FromBig(b[1..5]), 5))
  {
  }

  /** Shorts from 0 to 2^7 take one byte, to 2^14 two, and all others three. */
  lemma ShortIsWritten(x: int)
    requires -0x8000 <= x < 0x8000
    ensures var b := ShortBytes(x);
            && (0 <= x < 0x80 ==> b == [x])
            && (0x80 <= x < 0x4000 ==> b == [0x80 + x / 0x100, x % 0x100])
            && (0x4000 <= x ==> b == [0xff, x / 0x100, x % 0x100])
            && (x < 0 ==> b == [0xff, (x + 0x1_0000) / 0x100, x % 0x100])
  {
    var u := if x < 0 then x + 0x1_0000 else x;
    assert Big(u, 2) == Big(u / 0x100, 1) + [u % 0x100];
    assert Big(u / 0x100, 1) == Big(u / 0x1_0000, 0) + [u / 0x100 % 0x100];
    assert Big(u, 1) == Big(u / 0x100, 0) + [u % 0x100];
  }

  /** Numbers as they lie in the file. */
  lemma KnownNumbers()
    ensures UlongBytes(0x12) == [0x12] && UlongBytes(0x1234) == [0x92, 0x34]
    ensures UlongBytes(0x12_3456) == [0xd2, 0x34, 0x56]
    ensures FixedBytes(0x1234, 2) == [0x34, 0x12] && FixedBytes(-2, 2) == [0xfe, 0xff]
  {
    assert Big(0x34, 1) == [0x34];
    assert Big(0x1234, 1) == Big(0x12, 0) + [0x34];
    assert Big(0x12_3456, 2) == Big(0x1234, 1) + [0x56];
    assert Shr(0x1234, 1) == 0x12 && Shr(0x12_3456, 2) == Shr(0x1234, 1);
    KnownFixed();
  }

  lemma KnownFixed()
    ensures FixedBytes(0x1234, 2) == [0x34, 0x12] && FixedBytes(-2, 2) == [0xfe, 0xff]
  {
    assert Pow256(2) == 0x100 * Pow256(1) && Pow256(1) == 0x100;
    WrapIsUnique(0x1234, 0, 0x1234, 0x1_0000);
    WrapIsUnique(-2, -1, 0xfffe, 0x1_0000);
    assert Fixed(0x1234, 2) == [0x34] + Fixed(0x12, 1) && Fixed(0xfffe, 2) == [0xfe] + Fixed(0xff, 1);
    assert Fixed(0x12, 1) == [0x12] + Fixed(0, 0) && Fixed(0xff, 1) == [0xff] + Fixed(0, 0);
  }
}
