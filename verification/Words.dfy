/** Machine words: unsigned integers reduced modulo 2^32 or 2^64, their signed readings, and the
    zigzag and sign-extension conversions between them.
 */
module Words {
  import opened Modular

  function U32(x: int): (r: nat)
    ensures r < 0x1_0000_0000
  {
    Wrap(x, 0x1_0000_0000)
  }

  function U64(x: int): (r: nat)
    ensures r < 0x1_0000_0000_0000_0000
  {
    Wrap(x, 0x1_0000_0000_0000_0000)
  }

  lemma U32Split(x: int) returns (q: int)
    ensures x == q * 0x1_0000_0000 + U32(x)
  {
    q := WrapSplit(x, 0x1_0000_0000);
  }

  lemma U64Split(x: int) returns (q: int)
    ensures x == q * 0x1_0000_0000_0000_0000 + U64(x)
  {
    q := WrapSplit(x, 0x1_0000_0000_0000_0000);
  }

  // Reduction is the remainder.
  lemma WordIsRemainder(x: int)
    ensures U32(x) == x % 0x1_0000_0000 && U64(x) == x % 0x1_0000_0000_0000_0000
  {
    var q := U32Split(x);
    var p := U64Split(x);
  }

  lemma Same32(x: int, y: int, q: int)
    requires x == y + q * 0x1_0000_0000
    ensures U32(x) == U32(y)
  {
    var p := U32Split(x);
    var r := U32Split(y);
  }

  lemma Same64(x: int, y: int, q: int)
    requires x == y + q * 0x1_0000_0000_0000_0000
    ensures U64(x) == U64(y)
  {
    var p := U64Split(x);
    var r := U64Split(y);
  }

  lemma Wraps32(x: int, y: int)
    ensures U32(U32(x) + y) == U32(x + y)
  {
    var q := U32Split(x);
    Same32(x + y, U32(x) + y, q);
  }

  lemma Wraps64(x: int, y: int)
    ensures U64(U64(x) + y) == U64(x + y)
  {
    var q := U64Split(x);
    Same64(x + y, U64(x) + y, q);
  }

  // The same bits as a signed number.
  function Signed32(u: nat): int
    requires u < 0x1_0000_0000
  {
    if u < 0x8000_0000 then u else u - 0x1_0000_0000
  }

  function Signed64(u: nat): int
    requires u < 0x1_0000_0000_0000_0000
  {
    if u < 0x8000_0000_0000_0000 then u else u - 0x1_0000_0000_0000_0000
  }

  predicate Int32(v: int) { -0x8000_0000 <= v < 0x8000_0000 }

  type int32 = v: int | Int32(v)

  predicate Int64(v: int) { -0x8000_0000_0000_0000 <= v < 0x8000_0000_0000_0000 }

  lemma Signed32OfU32(i: int)
    requires Int32(i)
    ensures Signed32(U32(i)) == i
  {
    if i < 0 {
      Same32(i, i + 0x1_0000_0000, -1);
    }
  }

  lemma Signed64OfU64(i: int)
    requires Int64(i)
    ensures Signed64(U64(i)) == i
  {
    if i < 0 {
      Same64(i, i + 0x1_0000_0000_0000_0000, -1);
    }
  }

  // ---- Zigzag and sign extension ----

  // `x ^ -(bit)`: all bits are flipped, or none.
  function Flip32(x: nat, bit: bool): (r: nat)
    requires x < 0x1_0000_0000
    ensures r < 0x1_0000_0000
  {
    if bit then 0xFFFF_FFFF - x else x
  }

  function Flip64(x: nat, bit: bool): (r: nat)
    requires x < 0x1_0000_0000_0000_0000
    ensures r < 0x1_0000_0000_0000_0000
  {
    if bit then 0xFFFF_FFFF_FFFF_FFFF - x else x
  }

  function EncodeSint32(v: int): nat
    requires Int32(v)
  {
    Flip32(U32(U32(v) * 2), v < 0)
  }

  function DecodeSint32(u: nat): int
    requires u < 0x1_0000_0000
  {
    Signed32(Flip32(u / 2, u % 2 == 1))
  }

  function EncodeSint64(v: int): nat
    requires Int64(v)
  {
    Flip64(U64(U64(v) * 2), v < 0)
  }

  function DecodeSint64(u: nat): int
    requires u < 0x1_0000_0000_0000_0000
  {
    Signed64(Flip64(u / 2, u % 2 == 1))
  }

  // Zigzag numbers 0, -1, 1, -2, 2, ... in this order, so small magnitudes give short varints.
  lemma Zigzag32(v: int)
    requires Int32(v)
    ensures EncodeSint32(v) == if v >= 0 then 2 * v else -2 * v - 1
  {
    if v < 0 {
      Same32(v, v + 0x1_0000_0000, -1);
      Same32(U32(v) * 2, U32(v) * 2 - 0x1_0000_0000, 1);
    }
  }

  lemma Zigzag64(v: int)
    requires Int64(v)
    ensures EncodeSint64(v) == if v >= 0 then 2 * v else -2 * v - 1
  {
    if v < 0 {
      Same64(v, v + 0x1_0000_0000_0000_0000, -1);
      Same64(U64(v) * 2, U64(v) * 2 - 0x1_0000_0000_0000_0000, 1);
    }
  }

  lemma Sint32RoundTrip(v: int, u: nat)
    requires Int32(v) && u < 0x1_0000_0000
    ensures EncodeSint32(v) < 0x1_0000_0000 && DecodeSint32(EncodeSint32(v)) == v
    ensures Int32(DecodeSint32(u)) && EncodeSint32(DecodeSint32(u)) == u
  {
    Zigzag32(v);
    Zigzag32(DecodeSint32(u));
  }

  lemma Sint64RoundTrip(v: int, u: nat)
    requires Int64(v) && u < 0x1_0000_0000_0000_0000
    ensures EncodeSint64(v) < 0x1_0000_0000_0000_0000 && DecodeSint64(EncodeSint64(v)) == v
    ensures Int64(DecodeSint64(u)) && EncodeSint64(DecodeSint64(u)) == u
  {
    Zigzag64(v);
    Zigzag64(DecodeSint64(u));
  }

  // pb_expandsig: `(value ^ m) - m` in 64 bits, where m is bit 31.
  function ExpandSig(u: nat): nat
    requires u < 0x1_0000_0000
  {
    U64((if u < 0x8000_0000 then u + 0x8000_0000 else u - 0x8000_0000) - 0x8000_0000)
  }

  lemma ExpandSigIsSignExtension(u: nat)
    requires u < 0x1_0000_0000
    ensures Signed64(ExpandSig(u)) == Signed32(u)
  {
    if u >= 0x8000_0000 {
      Same64(u - 0x1_0000_0000, u - 0x1_0000_0000 + 0x1_0000_0000_0000_0000, -1);
    }
  }
}
