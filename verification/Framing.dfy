/** Frames of a connection: what a sender writes, how a receiver finds the frames in a byte stream,
    and what the header says.
 */
module Framing {
  import opened Common
  import opened Words

  // Frames between servers carry a player id; those of clients do not.
  datatype ProtoMode = Inner | Client

  const MAGIC_NUM: nat := 0x41544841
  const MAX_PACKET_SIZE: nat := 4 * 1024 * 1024
  const DEFAULT_BUFF_SIZE: nat := 64 * 1024
  const INNER_HEADER_LEN: nat := 16

  function HeaderLen(mode: ProtoMode): nat {
    if mode == Inner then INNER_HEADER_LEN else 12
  }

  // The length field does not count itself.
  function LenOverhead(mode: ProtoMode): nat { HeaderLen(mode) - 4 }

  function MagicOffset(mode: ProtoMode): nat { HeaderLen(mode) - 4 }

  // Big-endian 32-bit numbers.
  function WriteInt32(n: nat): (b: seq<byte>)
    requires n < 0x1_0000_0000
    ensures |b| == 4
  {
    var b: nat, c: nat, d: nat := n / 0x100, n / 0x1_0000, n / 0x100_0000;
    [d, c % 0x100, b % 0x100, n % 0x100]
  }

  function ReadInt32(b: seq<byte>, at: nat): (n: nat)
    requires at + 4 <= |b|
    ensures n < 0x1_0000_0000
  {
    b[at] as int * 0x100_0000 + b[at + 1] as int * 0x1_0000 + b[at + 2] as int * 0x100 + b[at + 3]
  }

  function Header(mode: ProtoMode, msgId: int, playerId: int, bodyLen: nat): (h: seq<byte>)
    ensures |h| == HeaderLen(mode)
  {
    WriteInt32(U32(bodyLen + LenOverhead(mode))) + WriteInt32(U32(msgId))
    + (if mode == Inner then WriteInt32(U32(playerId)) else []) + WriteInt32(MAGIC_NUM)
  }

  function Frame(mode: ProtoMode, msgId: int, playerId: int, body: seq<byte>): seq<byte> {
    Header(mode, msgId, playerId, |body|) + body
  }

  // peekNextPackLen: -1 for an incomplete frame, -2 for an illegal one, else the frame's length.
  function PeekNextPackLen(mode: ProtoMode, readable: seq<byte>): (n: int)
    ensures n == -1 || n == -2 || 4 <= n <= |readable|
  {
    if |readable| < HeaderLen(mode) then -1
    else
      var msgLen := ReadInt32(readable, 0);
      if msgLen > MAX_PACKET_SIZE - 4 then -2
      else if ReadInt32(readable, MagicOffset(mode)) != MAGIC_NUM then -2
      else if msgLen > |readable| - 4 then -1
      else msgLen + 4
  }

  // What the loop of uv_read_cb makes of a stream: whole frames, the rest, and whether the rest is
  // illegal.
  datatype Parsed = Parsed(frames: seq<seq<byte>>, rest: seq<byte>, bad: bool)

  function Drain(mode: ProtoMode, s: seq<byte>): Parsed
    decreases |s|
  {
    var n := PeekNextPackLen(mode, s);
    if n < 0 then Parsed([], s, n == -2)
    else
      var p := Drain(mode, s[n..]);
      p.(frames := [s[..n]] + p.frames)
  }

  function Concat(frames: seq<seq<byte>>): seq<byte> {
    if frames == [] then [] else frames[0] + Concat(frames[1..])
  }

  // ---- The header ----

  lemma Int32RoundTrip(n: nat, b: seq<byte>, at: nat)
    requires n < 0x1_0000_0000 && at + 4 <= |b| && b[at..at + 4] == WriteInt32(n)
    ensures ReadInt32(b, at) == n
  {
    var w := WriteInt32(n);
    assert w[0] == b[at..at + 4][0] && w[1] == b[at..at + 4][1];
    assert w[2] == b[at..at + 4][2] && w[3] == b[at..at + 4][3];
    BigEndian(n);
  }

  lemma BigEndian(n: nat)
    requires n < 0x1_0000_0000
    ensures n / 0x100_0000 * 0x100_0000 + n / 0x1_0000 % 0x100 * 0x1_0000 + n / 0x100 % 0x100 * 0x100 + n % 0x100 == n
  {
    var a, b := n / 0x100, n / 0x1_0000;
    assert b == a / 0x100 && n / 0x100_0000 == b / 0x100;
    assert n == a * 0x100 + n % 0x100 && a == b * 0x100 + a % 0x100 && b == b / 0x100 * 0x100 + b % 0x100;
  }

  lemma HeaderFields(mode: ProtoMode, msgId: int, playerId: int, bodyLen: nat, more: seq<byte>)
    ensures var b := Header(mode, msgId, playerId, bodyLen) + more;
            && ReadInt32(b, 0) == U32(bodyLen + LenOverhead(mode)) && ReadInt32(b, 4) == U32(msgId)
            && ReadInt32(b, MagicOffset(mode)) == MAGIC_NUM
            && (mode == Inner ==> ReadInt32(b, 8) == U32(playerId))
  {
    var b := Header(mode, msgId, playerId, bodyLen) + more;
    Int32RoundTrip(U32(bodyLen + LenOverhead(mode)), b, 0);
    Int32RoundTrip(U32(msgId), b, 4);
    Int32RoundTrip(MAGIC_NUM, b, MagicOffset(mode));
    if mode == Inner {
      Int32RoundTrip(U32(playerId), b, 8);
    }
  }

  datatype DecodedMsg = DecodedMsg(msgId: int, playerId: int, body: Option<seq<byte>>)

  // parseHeader; `out` has player id 0 to begin with.
  function ParseHeader(mode: ProtoMode, frame: seq<byte>): DecodedMsg {
    if |frame| < HeaderLen(mode) || ReadInt32(frame, MagicOffset(mode)) != MAGIC_NUM then DecodedMsg(0, 0, None)
    else
      DecodedMsg(Signed32(ReadInt32(frame, 4)),
                 if mode == Inner then Signed32(ReadInt32(frame, 8)) else 0,
                 Some(frame[HeaderLen(mode)..]))
  }

  // Any 32-bit message id and, between servers, any 32-bit player id come back.
  lemma ParseHeaderInvertsFrame(mode: ProtoMode, msgId: int, playerId: int, body: seq<byte>)
    requires Int32(msgId) && Int32(playerId)
    ensures ParseHeader(mode, Frame(mode, msgId, playerId, body)) ==
            DecodedMsg(msgId, if mode == Inner then playerId else 0, Some(body))
  {
    HeaderFields(mode, msgId, playerId, |body|, body);
    Signed32OfU32(msgId);
    Signed32OfU32(playerId);
  }

  // ---- Finding frames ----

  // A frame that the sender accepts.
  ghost predicate Legal(mode: ProtoMode, f: seq<byte>) {
    |f| <= MAX_PACKET_SIZE && exists msgId, playerId, body :: f == Frame(mode, msgId, playerId, body)
  }

  // Every frame that a sender accepts passes the receiver's limits.
  lemma LegalFrameIsFound(mode: ProtoMode, f: seq<byte>, rest: seq<byte>)
    requires Legal(mode, f)
    ensures PeekNextPackLen(mode, f + rest) == |f|
  {
    var msgId, playerId, body :| f == Frame(mode, msgId, playerId, body);
    var h := Header(mode, msgId, playerId, |body|);
    assert f + rest == h + (body + rest);
    HeaderFields(mode, msgId, playerId, |body|, body + rest);
  }

  lemma PrefixIsIncomplete(mode: ProtoMode, f: seq<byte>, s: seq<byte>)
    requires Legal(mode, f) && s < f
    ensures PeekNextPackLen(mode, s) == -1
  {
    if |s| >= HeaderLen(mode) {
      LegalFrameIsFound(mode, f, []);
      assert f + [] == f;
      assert forall i | 0 <= i < |s| :: s[i] == f[i];
    }
  }

  // More bytes do not change a verdict.
  lemma PeekIsStable(mode: ProtoMode, a: seq<byte>, b: seq<byte>)
    requires PeekNextPackLen(mode, a) != -1
    ensures PeekNextPackLen(mode, a + b) == PeekNextPackLen(mode, a)
  {
    assert forall i | 0 <= i < |a| :: (a + b)[i] == a[i];
  }

  // Illegal is what has a whole header with another magic number or a frame longer than 4 MB.
  lemma IllegalIff(mode: ProtoMode, s: seq<byte>)
    ensures PeekNextPackLen(mode, s) == -2 <==>
            var n := if mode == Inner then 16 else 12;
            && |s| >= n
            && (s[n - 4..n] != [0x41, 0x54, 0x48, 0x41] || ReadInt32(s, 0) + 4 > 0x40_0000)
  {
    var n: nat := if mode == Inner then 16 else 12;
    if |s| >= n {
      MagicBytes(s[n - 4], s[n - 3], s[n - 2], s[n - 1]);
      assert s[n - 4..n] == [s[n - 4], s[n - 3], s[n - 2], s[n - 1]];
      assert ReadInt32(s, n - 4) == ReadInt32([s[n - 4], s[n - 3], s[n - 2], s[n - 1]], 0);
    }
  }

  lemma MagicBytes(a: byte, b: byte, c: byte, d: byte)
    ensures ReadInt32([a, b, c, d], 0) == MAGIC_NUM <==> [a, b, c, d] == [0x41, 0x54, 0x48, 0x41]
  {
    assert ReadInt32([a, b, c, d], 0) == a as int * 0x100_0000 + b as int * 0x1_0000 + c as int * 0x100 + d as int;
    assert [a, b, c, d][0] == a && [a, b, c, d][1] == b && [a, b, c, d][2] == c && [a, b, c, d][3] == d;
  }

  // A connection is given up exactly when no bytes that may still come can make a frame of what is there.
  lemma IllegalIffHopeless(mode: ProtoMode, s: seq<byte>)
    ensures PeekNextPackLen(mode, s) == -2 <==>
            |s| >= HeaderLen(mode) && forall more :: PeekNextPackLen(mode, s + more) < 0
  {
    if PeekNextPackLen(mode, s) == -2 {
      forall more ensures PeekNextPackLen(mode, s + more) < 0 {
        PeekIsStable(mode, s, more);
      }
    } else if |s| >= HeaderLen(mode) {
      var more := seq<byte>(ReadInt32(s, 0), _ => 0);
      assert forall i | 0 <= i < |s| :: (s + more)[i] == s[i];
      assert PeekNextPackLen(mode, s + more) >= 0;
    }
  }

  // Frames as they are on the wire.
  lemma KnownFrames()
    ensures Frame(Client, 5, 0, [7]) == [0, 0, 0, 9, 0, 0, 0, 5, 0x41, 0x54, 0x48, 0x41, 7]
    ensures Frame(Inner, 0x102, -2, [7]) ==
            [0, 0, 0, 13, 0, 0, 1, 2, 0xff, 0xff, 0xff, 0xfe, 0x41, 0x54, 0x48, 0x41, 7]
  {
    assert U32(-2) == 0xffff_fffe;
  }

  // A frame that is shorter than its header is taken if and only if its length field says so; it gives a
  // message without a body.
  lemma ShortFrameIsTaken(mode: ProtoMode, s: seq<byte>)
    ensures 0 <= PeekNextPackLen(mode, s) < HeaderLen(mode) <==>
            |s| >= HeaderLen(mode) && ReadInt32(s, MagicOffset(mode)) == MAGIC_NUM &&
              ReadInt32(s, 0) + 4 < HeaderLen(mode)
    ensures 0 <= PeekNextPackLen(mode, s) < HeaderLen(mode) ==>
              ParseHeader(mode, s[..PeekNextPackLen(mode, s)]).body == None
  {
  }

  // For example by a length of zero.
  lemma EmptyFrameIsTaken()
    ensures var s: seq<byte> := [0, 0, 0, 0, 0, 0, 0, 1, 0x41, 0x54, 0x48, 0x41];
            PeekNextPackLen(Client, s) == 4 && ParseHeader(Client, s[..4]).body == None
  {
  }

  lemma DrainTakes(mode: ProtoMode, f: seq<byte>, rest: seq<byte>)
    requires PeekNextPackLen(mode, f + rest) == |f|
    ensures Drain(mode, f + rest) ==
            Parsed([f] + Drain(mode, rest).frames, Drain(mode, rest).rest, Drain(mode, rest).bad)
  {
    assert (f + rest)[..|f|] == f && (f + rest)[|f|..] == rest;
  }

  // What draining a + b should come to.
  ghost function Continued(mode: ProtoMode, p: Parsed, b: seq<byte>): Parsed {
    var q := Drain(mode, p.rest + b);
    Parsed(p.frames + q.frames, q.rest, q.bad)
  }

  lemma ContinuedAfter(mode: ProtoMode, f: seq<byte>, p: Parsed, b: seq<byte>)
    ensures Continued(mode, p.(frames := [f] + p.frames), b) ==
            Parsed([f] + Continued(mode, p, b).frames, Continued(mode, p, b).rest, Continued(mode, p, b).bad)
  {
    assert [f] + p.frames + Drain(mode, p.rest + b).frames == [f] + (p.frames + Drain(mode, p.rest + b).frames);
  }

  // Cutting the stream into chunks does not matter: draining after each chunk finds the frames that
  // draining the whole stream finds.
  lemma {:induction false} DrainInChunks(mode: ProtoMode, a: seq<byte>, b: seq<byte>)
    ensures Drain(mode, a + b) == Continued(mode, Drain(mode, a), b)
    ensures Drain(mode, a).bad ==> Drain(mode, a + b).frames == Drain(mode, a).frames && Drain(mode, a + b).bad
    decreases |a|
  {
    var n := PeekNextPackLen(mode, a);
    if n >= 0 {
      var f, rest := a[..n], a[n..];
      assert a == f + rest && a + b == f + (rest + b);
      PeekIsStable(mode, a, b);
      DrainTakes(mode, f, rest);
      DrainTakes(mode, f, rest + b);
      DrainInChunks(mode, rest, b);
      ContinuedAfter(mode, f, Drain(mode, rest), b);
    } else {
      NothingFound(mode, a, b);
    }
  }

  lemma NothingFound(mode: ProtoMode, a: seq<byte>, b: seq<byte>)
    requires PeekNextPackLen(mode, a) < 0
    ensures Drain(mode, a) == Parsed([], a, PeekNextPackLen(mode, a) == -2)
    ensures Drain(mode, a + b) == Continued(mode, Drain(mode, a), b)
    ensures Drain(mode, a).bad ==> Drain(mode, a + b).frames == [] && Drain(mode, a + b).bad
  {
    assert [] + Drain(mode, a + b).frames == Drain(mode, a + b).frames;
    if PeekNextPackLen(mode, a) == -2 {
      PeekIsStable(mode, a, b);
    }
  }

  // p is what should be found in s: the first of the frames, whole and in order, with less than one
  // more frame left over.
  ghost predicate FindsFrames(p: Parsed, frames: seq<seq<byte>>, s: seq<byte>) {
    && p.frames <= frames && !p.bad && Concat(p.frames) + p.rest == s
    && (if |p.frames| == |frames| then p.rest == [] else p.rest < frames[|p.frames|])
  }

  lemma OneFrameMore(f: seq<byte>, frames: seq<seq<byte>>, p: Parsed, s: seq<byte>)
    requires FindsFrames(p, frames, s)
    ensures FindsFrames(p.(frames := [f] + p.frames), [f] + frames, f + s)
  {
    assert ([f] + p.frames)[1..] == p.frames;
    assert f + Concat(p.frames) + p.rest == f + (Concat(p.frames) + p.rest);
  }

  // From a stream of legal frames, cut off anywhere, exactly the whole frames are delivered, in
  // order, and less than the next frame is left over.
  lemma {:induction false} StreamIsParsed(mode: ProtoMode, frames: seq<seq<byte>>, s: seq<byte>)
    requires s <= Concat(frames) && forall i | 0 <= i < |frames| :: Legal(mode, frames[i])
    ensures FindsFrames(Drain(mode, s), frames, s)
    decreases |frames|
  {
    if frames == [] {
      assert Concat([]) + [] == s;
    } else if frames[0] <= s {
      var f, rest := frames[0], s[|frames[0]|..];
      assert s == f + rest && rest <= Concat(frames[1..]);
      LegalFrameIsFound(mode, f, rest);
      DrainTakes(mode, f, rest);
      StreamIsParsed(mode, frames[1..], rest);
      OneFrameMore(f, frames[1..], Drain(mode, rest), rest);
      assert [f] + frames[1..] == frames;
    } else {
      assert s < frames[0] by { PrefixesCompare(s, frames[0], Concat(frames[1..])); }
      PrefixIsIncomplete(mode, frames[0], s);
      assert Concat([]) + s == s;
    }
  }

  lemma PrefixesCompare(s: seq<byte>, f: seq<byte>, more: seq<byte>)
    requires s <= f + more
    ensures f <= s || s < f
  {
    if |s| >= |f| {
      assert s[..|f|] == (f + more)[..|f|] == f;
    }
  }
}
