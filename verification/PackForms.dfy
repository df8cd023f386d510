/** What each formatter letter packs, by the numbers that end up in the buffer. */
module PackForms {
  import opened Common
  import opened Words
  import opened Varint
  import M = Message
  import W = WireForms
  import opened Pack

  // The bytes are the varint of w.
  predicate IsVarintOf(b: seq<byte>, w: int) {
    w >= 0 && Decode(b, 10) == Some(Varint.Read(w, |b|))
  }

  // The number of the same low bits that a signed word of 32 or 64 bits holds.
  function Truncated(n: int, bits64: bool): int {
    if bits64 then Signed64(U64(n)) else Signed32(U32(n))
  }

  lemma TruncatedIs(n: int, bits64: bool)
    ensures bits64 ==> Int64(Truncated(n, true)) && U64(Truncated(n, true)) == U64(n) == n % W.WORD64
    ensures !bits64 ==> Int32(Truncated(n, false)) && U32(Truncated(n, false)) == U32(n) == n % W.WORD32
  {
    WordIsRemainder(n);
    if bits64 {
      WordIsRemainder(Truncated(n, true));
    } else {
      WordIsRemainder(Truncated(n, false));
    }
  }

  function Zigzagged(v: int): int { if v >= 0 then 2 * v else -2 * v - 1 }

  function Extended(v: int): int { if v >= 0 then v else v + W.WORD64 }

  lemma VarintIs(k: M.Kind, v: int)
    requires W.IsVarintKind(k) && M.InRange(k, M.Int(v))
    ensures IsVarintOf(M.ScalarBytes(k, M.Int(v)), W.NumberOf(k, M.Int(v)))
  {
    W.VarintKindsAreWritten(k, M.Int(v), []);
    W.WordIs(k, M.Int(v));
    var b := M.ScalarBytes(k, M.Int(v));
    assert b + [] == b;
  }

  // What letter c makes of the integer n.
  predicate PacksInteger(c: char, n: int, b: seq<byte>) {
    match c
    case 'v' => IsVarintOf(b, n % W.WORD64)
    case 'd' => |b| == 4 && W.Little4(b) == n % W.WORD32
    case 'q' => |b| == 8 && W.Little4(b[..4]) + W.WORD32 * W.Little4(b[4..]) == n % W.WORD64
    case 'i' => IsVarintOf(b, Extended(Truncated(n, false)))
    case 'u' => IsVarintOf(b, n % W.WORD32)
    case 'j' => IsVarintOf(b, Zigzagged(Truncated(n, false)))
    case 'x' => |b| == 4 && W.Little4(b) == n % W.WORD32
    case 'y' => |b| == 4 && W.Little4(b) == n % W.WORD32
    case 'I' => IsVarintOf(b, n % W.WORD64)
    case 'U' => IsVarintOf(b, n % W.WORD64)
    case 'J' => IsVarintOf(b, Zigzagged(Truncated(n, true)))
    case 'X' => |b| == 8 && W.Little4(b[..4]) + W.WORD32 * W.Little4(b[4..]) == n % W.WORD64
    case 'Y' => |b| == 8 && W.Little4(b[..4]) + W.WORD32 * W.Little4(b[4..]) == n % W.WORD64
    case _ => false
  }

  const INTEGER_LETTERS := "vdqiujxyIUJXY"

  /** These letters, and no others but `#` and `b`, take an integer: the capital ones for 64 bits, the small ones
      for the low 32; i, I, u and U plain, j and J zigzag, x, y, X and Y fixed. */
  lemma IntegersArePacked(c: char, n: int)
    requires c != '#' && c != 'b'
    ensures PackOne(c, Num(n), []).Some? <==> c in INTEGER_LETTERS
    ensures c in INTEGER_LETTERS ==> PacksInteger(c, n, PackOne(c, Num(n), []).value)
  {
    if c in "vdq" {
      RawIsPacked(c, n);
    } else if c in "iuj" {
      SmallVarintIsPacked(c, n);
    } else if c in "IUJ" {
      LargeVarintIsPacked(c, n);
    } else if c in "xyXY" {
      FixedIsPacked(c, n);
    }
  }

  lemma RawIsPacked(c: char, n: int)
    requires c in "vdq"
    ensures PackOne(c, Num(n), []).Some? && PacksInteger(c, n, PackOne(c, Num(n), []).value)
  {
    TruncatedIs(n, true);
    TruncatedIs(n, false);
    TenGroups();
    Pow256Values();
    DecodeEncode(U64(n), [], 10);
    assert Encode(U64(n)) + [] == Encode(U64(n)) == [] + Encode(U64(n));
    FixedRoundTrip(U32(n), 4);
    FixedRoundTrip(U64(n), 8);
    W.LittleIsFixed(Fixed(U32(n), 4));
    W.LittleIsFixed(Fixed(U64(n), 8));
    assert [] + Fixed(U32(n), 4) == Fixed(U32(n), 4) && [] + Fixed(U64(n), 8) == Fixed(U64(n), 8);
  }

  lemma SmallVarintIsPacked(c: char, n: int)
    requires c in "iuj"
    ensures PackOne(c, Num(n), []).Some? && PacksInteger(c, n, PackOne(c, Num(n), []).value)
  {
    TypedPacks(c, Num(n));
    TruncatedIs(n, false);
    var v := Truncated(n, false);
    if c == 'u' {
      TruncatedIs(n % W.WORD32, false);
      VarintIs(M.UInt32, n % W.WORD32);
    } else {
      VarintIs(if c == 'i' then M.Int32 else M.SInt32, v);
    }
  }

  lemma LargeVarintIsPacked(c: char, n: int)
    requires c in "IUJ"
    ensures PackOne(c, Num(n), []).Some? && PacksInteger(c, n, PackOne(c, Num(n), []).value)
  {
    TypedPacks(c, Num(n));
    TruncatedIs(n, true);
    VarintIs(if c == 'I' then M.Int64 else if c == 'U' then M.UInt64 else M.SInt64, Truncated(n, true));
  }

  lemma FixedIsPacked(c: char, n: int)
    requires c in "xyXY"
    ensures PackOne(c, Num(n), []).Some? && PacksInteger(c, n, PackOne(c, Num(n), []).value)
  {
    TypedPacks(c, Num(n));
    TruncatedIs(n, true);
    TruncatedIs(n, false);
    Pow256Values();
    if c in "xy" {
      FixedRoundTrip(U32(n), 4);
      W.LittleIsFixed(Fixed(U32(n), 4));
    } else {
      FixedRoundTrip(U64(n), 8);
      W.LittleIsFixed(Fixed(U64(n), 8));
    }
  }

  /** The other letters: b is the truth of any argument, c the bytes alone, s and t their length first. */
  lemma OthersArePacked(a: Arg, b: seq<byte>)
    ensures PackOne('b', a, []) == Some(if a == Nil || a == Boolean(false) then [0] else [1])
    ensures PackOne('c', Bytes(b), []) == Some(b)
    ensures |b| < W.WORD32 ==> PackOne('s', Bytes(b), []) == PackOne('t', Bytes(b), []) == Some(Encode(|b|) + b)
  {
    assert [] + b == b;
    TypedPacks('b', a);
    TypedPacks('t', Bytes(b));
    assert [] + (Encode(U32(|b|)) + b) == Encode(U32(|b|)) + b;
  }
}
