/** One connection. The sending half writes whole frames into a ring and keeps one write in flight;
    the receiving half lets the network write into a ring and delivers the frames it finds. The
    halves share only the closed flag, so each is a class of its own here.
 */
module Channel {
  import opened Common
  import opened Words
  import opened Framing
  import opened Ring

  // clampBuffSize
  function ClampBuffSize(size: nat): nat {
    if size == 0 then DEFAULT_BUFF_SIZE
    else if size > MAX_PACKET_SIZE + INNER_HEADER_LEN then MAX_PACKET_SIZE + INNER_HEADER_LEN
    else size
  }

  // Whatever size is asked for, a buffer can be made; it holds any legal frame that size was meant for.
  lemma ClampedIsEnough(size: nat, n: nat)
    ensures 0 < ClampBuffSize(size) <= 0x40_0010
    ensures n <= MAX_PACKET_SIZE && n <= (if size == 0 then 0x1_0000 else size) ==> n <= ClampBuffSize(size)
  {
  }

  // What the write callback is told.
  datatype WriteStatus = Written | Canceled | Failed

  class Sender {
    const mode: ProtoMode
    const send: RingByteBuf
    var closed: bool
    var inFlight: Option<nat> // sendSize of the WritePack

    ghost var accepted: seq<seq<byte>> // the frames that were not dropped
    ghost var acked: seq<byte> // what the network has taken
    ghost var handed: seq<byte> // everything passed to uv_write

    ghost predicate Stored()
      reads this, send, send.buf
    {
      && send.Valid()
      && (forall i | 0 <= i < |accepted| :: Legal(mode, accepted[i]))
      && Concat(accepted) == acked + send.Contents()
      && handed <= Concat(accepted)
      && (inFlight.Some? ==> InFlightOk(inFlight.value))
    }

    // While the channel is open, one write is in flight exactly when there is something to send.
    ghost predicate Valid()
      reads this, send, send.buf
    {
      Stored() && (!closed ==> (inFlight == None <==> send.Contents() == []) && (inFlight == None ==> handed == acked))
    }

    // The bytes in flight are the first readable ones, in one piece.
    ghost predicate InFlightOk(n: nat)
      requires send.Valid()
      reads this, send, send.buf
    {
      && 0 < n <= |send.Contents()| && send.head + n <= send.buf.Length
      && handed == acked + send.Contents()[..n]
    }

    // The memory that the write in flight reads from.
    ghost function Region(): seq<byte>
      requires Stored()
      reads this, send, send.buf
    {
      if inFlight == None then [] else send.buf[send.head..send.head + inFlight.value]
    }

    // While the channel is open one write is in flight exactly when bytes are waiting. What the network
    // was ever handed is a prefix of the accepted frames, and the memory of the write in flight holds
    // just the part of it that is not acknowledged.
    lemma OneWriteInFlight()
      requires Valid()
      ensures !closed ==> (inFlight.Some? <==> send.Contents() != [])
      ensures acked <= handed <= Concat(accepted) || closed
      ensures inFlight.Some? ==> acked <= handed <= Concat(accepted) && Region() == handed[|acked|..] != []
    {
      if inFlight.Some? {
        send.LinearPrefix(inFlight.value);
      }
    }

    constructor (mode: ProtoMode, sendBuffSize: nat)
      ensures Valid() && !closed && inFlight == None && accepted == [] && acked == [] && handed == []
      ensures fresh(send) && fresh(send.buf) && this.mode == mode
      ensures ClampBuffSize(sendBuffSize) <= send.Capacity()
    {
      this.mode := mode;
      send := new RingByteBuf(ClampBuffSize(sendBuffSize));
      closed, inFlight := false, None;
      accepted, acked, handed := [], [], [];
    }

    method Close()
      requires Stored()
      modifies `closed
      ensures Valid() && closed
    {
      closed := true;
    }

    // doUvSend: hand over the longest run of bytes that does not wrap. `started` is whether uv_write
    // succeeds.
    method DoUvSend(started: bool)
      requires Stored() && inFlight == None && (!closed ==> handed == acked)
      modifies `closed, `inFlight, `handed
      ensures Valid()
      ensures closed <==> old(closed) || (!started && send.Contents() != [])
      ensures inFlight.Some? <==> !closed && send.Contents() != []
      ensures inFlight.Some? ==> LongestRun(inFlight.value)
      ensures inFlight == None ==> handed == old(handed)
    {
      if closed {
        return;
      }
      var start, needSendLen := send.LinearReadable();
      if needSendLen == 0 {
        return;
      }
      if !started {
        Close();
        return;
      }
      inFlight := Some(needSendLen);
      handed := acked + send.Contents()[..needSendLen];
      assert acked + send.Contents()[..needSendLen] <= acked + send.Contents();
    }

    ghost predicate LongestRun(n: nat)
      requires send.Valid()
      reads this, send, send.buf
    {
      n == |send.Contents()| || send.head + n == send.buf.Length
    }

    // The callback of uv_write. Only success moves the read index, and starts the next write.
    method OnWritten(status: WriteStatus, started: bool)
      requires Valid() && inFlight.Some? && (status == Canceled ==> closed)
      modifies `closed, `inFlight, `handed, `acked, send`head
      ensures Valid()
      ensures status == Written ==>
                acked == old(acked) + old(send.Contents())[..old(inFlight).value] &&
                send.Contents() == old(send.Contents())[old(inFlight).value..]
      ensures status != Written ==> acked == old(acked) && send.Contents() == old(send.Contents())
      ensures closed <==> || old(closed) || status == Failed
                          || (status == Written && !started && send.Contents() != [])
      ensures inFlight.Some? ==> LongestRun(inFlight.value)
    {
      if status != Written {
        inFlight := None;
        if status != Canceled {
          Close();
        }
      } else {
        Acknowledge();
        DoUvSend(started);
      }
    }

    // The bytes of the write in flight leave the ring.
    method Acknowledge()
      requires Stored() && inFlight.Some?
      modifies `inFlight, `acked, send`head
      ensures Stored() && inFlight == None && handed == acked
      ensures acked == old(acked) + old(send.Contents())[..old(inFlight).value]
      ensures send.Contents() == old(send.Contents())[old(inFlight).value..]
    {
      var sendSize := inFlight.value;
      var moved := send.AdvanceReadIndex(sendSize);
      Taken(acked, old(send.Contents()), sendSize);
      acked := acked + old(send.Contents())[..sendSize];
      inFlight := None;
    }

    // If every write succeeds, all that was accepted is sent.
    method WriteAll()
      requires Valid() && !closed
      modifies `closed, `inFlight, `handed, `acked, send`head
      ensures Valid() && !closed && inFlight == None && acked == handed == Concat(accepted)
    {
      while inFlight.Some?
        invariant Valid() && !closed
        decreases |send.Contents()|
      {
        OnWritten(Written, true);
      }
    }

    // eventLoopWrite and eventLoopRawWrite: a frame goes in whole or not at all, and if nothing was
    // waiting, sending starts.
    method EventLoopWrite(msgId: int, body: seq<byte>, playerId: int, started: bool)
      requires Valid()
      modifies this, send`tail, send.buf
      ensures Valid() && acked == old(acked)
      ensures var f := Frame(mode, msgId, playerId, body);
              accepted == if !old(closed) && |f| <= MAX_PACKET_SIZE && |f| <= old(send.WritableBytes())
                          then old(accepted) + [f] else old(accepted)
      ensures old(inFlight).Some? ==> inFlight == old(inFlight) && handed == old(handed) && Region() == old(Region())
      ensures old(inFlight) == None && inFlight.Some? ==> LongestRun(inFlight.value)
      ensures closed <==> old(closed) || (!started && accepted != old(accepted) && old(send.Contents()) == [])
    {
      if closed {
        return;
      }
      send.ReadableIsLength();
      var needCallSend := send.ReadableBytes() == 0;
      var ok := AcceptFrame(msgId, body, playerId);
      if ok && needCallSend {
        DoUvSend(started);
      }
    }

    // A frame that is too long, or does not fit, is dropped.
    method AcceptFrame(msgId: int, body: seq<byte>, playerId: int) returns (ok: bool)
      requires Stored()
      modifies `accepted, send`tail, send.buf
      ensures Stored()
      ensures var f := Frame(mode, msgId, playerId, body);
              && (ok <==> |f| <= MAX_PACKET_SIZE && |f| <= old(send.WritableBytes()))
              && accepted == (if ok then old(accepted) + [f] else old(accepted))
              && send.Contents() == (if ok then old(send.Contents()) + f else old(send.Contents()))
      ensures Region() == old(Region())
    {
      var frameLen := |body| + HeaderLen(mode);
      if frameLen > MAX_PACKET_SIZE {
        return false;
      }
      if send.WritableBytes() < frameLen {
        return false;
      }
      ghost var c := send.Contents();
      if inFlight.Some? {
        send.LinearPrefix(inFlight.value);
      }
      WriteFrame(msgId, body, playerId);
      if inFlight.Some? {
        send.LinearPrefix(inFlight.value);
        assert send.Contents()[..inFlight.value] == c[..inFlight.value];
      }
      return true;
    }

    // The header fields, one write after the other.
    method WriteHeader(msgId: int, bodyLen: nat, playerId: int)
      requires send.Valid() && HeaderLen(mode) <= send.WritableBytes()
      modifies send`tail, send.buf
      ensures send.Valid() && send.Contents() == old(send.Contents()) + Header(mode, msgId, playerId, bodyLen)
      ensures send.WritableBytes() == old(send.WritableBytes()) - HeaderLen(mode)
    {
      ghost var was := send.Contents();
      var len, id := WriteInt32(U32(bodyLen + LenOverhead(mode))), WriteInt32(U32(msgId));
      var player := if mode == Inner then WriteInt32(U32(playerId)) else [];
      send.Write(len);
      send.Write(id);
      if mode == Inner {
        send.Write(player);
      } else {
        assert send.Contents() + player == send.Contents();
      }
      send.Write(WriteInt32(MAGIC_NUM));
      InOrder(was, len, id, player, WriteInt32(MAGIC_NUM));
    }

    method WriteFields(msgId: int, body: seq<byte>, playerId: int)
      requires send.Valid() && |body| + HeaderLen(mode) <= send.WritableBytes()
      modifies send`tail, send.buf
      ensures send.Valid() && send.Contents() == old(send.Contents()) + Frame(mode, msgId, playerId, body)
    {
      ghost var was := send.Contents();
      WriteHeader(msgId, |body|, playerId);
      send.Write(body);
      assert was + Header(mode, msgId, playerId, |body|) + body == was + Frame(mode, msgId, playerId, body);
    }

    method WriteFrame(msgId: int, body: seq<byte>, playerId: int)
      requires Stored() && |body| + HeaderLen(mode) <= MAX_PACKET_SIZE
      requires |body| + HeaderLen(mode) <= send.WritableBytes()
      modifies `accepted, send`tail, send.buf
      ensures Stored() && accepted == old(accepted) + [Frame(mode, msgId, playerId, body)]
      ensures send.Contents() == old(send.Contents()) + Frame(mode, msgId, playerId, body)
    {
      ghost var was, f := send.Contents(), Frame(mode, msgId, playerId, body);
      WriteFields(msgId, body, playerId);
      FrameIsLegal(mode, msgId, playerId, body);
      ConcatSnoc(accepted, f);
      OneMoreFrame(acked, was, f);
      accepted := accepted + [f];
    }
  }

  lemma FrameIsLegal(mode: ProtoMode, msgId: int, playerId: int, body: seq<byte>)
    requires |body| + HeaderLen(mode) <= MAX_PACKET_SIZE
    ensures Legal(mode, Frame(mode, msgId, playerId, body))
  {
  }

  lemma OneMoreFrame(acked: seq<byte>, was: seq<byte>, f: seq<byte>)
    ensures acked + (was + f) == acked + was + f && acked + was <= acked + was + f
  {
  }

  lemma InOrder(c: seq<byte>, a: seq<byte>, b: seq<byte>, p: seq<byte>, m: seq<byte>)
    ensures c + a + b + p + m == c + (a + b + p + m)
  {
  }

  lemma {:induction false} ConcatSnoc(frames: seq<seq<byte>>, f: seq<byte>)
    ensures Concat(frames + [f]) == Concat(frames) + f
  {
    if frames == [] {
      assert [] + [f] == [f] && [f][1..] == [];
      assert Concat([f]) == f + [];
    } else {
      ConcatSnoc(frames[1..], f);
      assert (frames + [f])[1..] == frames[1..] + [f];
    }
  }

  lemma Taken(acked: seq<byte>, c: seq<byte>, n: nat)
    requires n <= |c|
    ensures (acked + c[..n]) + c[n..] == acked + c
  {
  }

  class Receiver {
    const mode: ProtoMode
    const recv: RingByteBuf
    var closed: bool
    var delivered: seq<seq<byte>> // what on_read was called with

    ghost var arrived: seq<byte> // what the network wrote into the ring

    // While the channel is open, what was delivered and what is left in the ring depend only on the
    // bytes that arrived, not on how they were cut.
    ghost predicate Valid()
      reads this, recv, recv.buf
    {
      && recv.Valid()
      && delivered <= Drain(mode, arrived).frames
      && (!closed ==>
            var p := Drain(mode, arrived);
            delivered == p.frames && recv.Contents() == p.rest && !p.bad)
    }

    constructor (mode: ProtoMode, recvBuffSize: nat)
      ensures Valid() && !closed && delivered == [] && arrived == []
      ensures fresh(recv) && fresh(recv.buf) && this.mode == mode
      ensures ClampBuffSize(recvBuffSize) <= recv.Capacity()
    {
      this.mode := mode;
      recv := new RingByteBuf(ClampBuffSize(recvBuffSize));
      closed := false;
      delivered, arrived := [], [];
    }

    // uv_alloc_cb: a full ring that holds no whole frame closes the channel.
    method UvAlloc() returns (start: nat, len: nat)
      requires Valid()
      modifies `closed
      ensures Valid() && start == recv.tail && start + len <= recv.buf.Length && len <= recv.WritableBytes()
      ensures closed <==> old(closed) || |recv.Contents()| == recv.Capacity()
      ensures !closed ==> len > 0
    {
      start, len := recv.LinearWritable();
      if len == 0 {
        closed := true;
      }
    }

    // The network puts a chunk into the window; then uv_read_cb runs. The handler is given frame after frame;
    // `closesAt` is the one, counted from 0, during which it closes the channel, if it does.
    method UvRead(start: nat, len: nat, chunk: seq<byte>, closesAt: Option<nat>)
      requires Valid() && start == recv.tail && start + len <= recv.buf.Length && len <= recv.WritableBytes()
      requires 0 < |chunk| <= len
      modifies this, recv, recv.buf
      ensures Valid()
      ensures old(closed) ==> closed && arrived == old(arrived) && delivered == old(delivered)
      ensures !old(closed) ==>
                var p := Drain(mode, arrived);
                && arrived == old(arrived) + chunk && old(delivered) <= p.frames
                && var found := p.frames[|old(delivered)|..];
                   && delivered == old(delivered) + found[..Handled(closesAt, |found|)]
                   && (closed <==> p.bad || ClosedByHandler(closesAt, |found|))
    {
      if closed {
        return;
      }
      ghost var rest := recv.Contents();
      Fill(start, chunk);
      DrainInChunks(mode, arrived, chunk);
      arrived := arrived + chunk;
      assert Drain(mode, arrived).frames[|old(delivered)|..] == Drain(mode, rest + chunk).frames;
      DrainLoop(closesAt, old(delivered), Drain(mode, rest + chunk));
    }

    // onRead: the bytes become readable.
    method Fill(start: nat, chunk: seq<byte>)
      requires recv.Valid() && start == recv.tail && start + |chunk| <= recv.buf.Length
      requires |chunk| <= recv.WritableBytes()
      modifies recv, recv.buf
      ensures recv.Valid() && recv.Contents() == old(recv.Contents()) + chunk
    {
      recv.WindowIsFree(|chunk|);
      CopyIn(recv.buf, start, chunk);
      recv.ReadableIsLength();
      recv.SameReadable(old(recv.buf[..]), chunk);
      var ok := recv.AdvanceWriteIndex(|chunk|);
    }

    // The loop of uv_read_cb.
    method DrainLoop(closesAt: Option<nat>, ghost before: seq<seq<byte>>, ghost p: Parsed)
      requires recv.Valid() && !closed && delivered == before && p == Drain(mode, recv.Contents())
      modifies this`closed, this`delivered, recv`head
      ensures recv.Valid() && delivered == before + p.frames[..Handled(closesAt, |p.frames|)]
      ensures closed <==> p.bad || ClosedByHandler(closesAt, |p.frames|)
      ensures !closed ==> recv.Contents() == p.rest
    {
      var i := 0;
      NoneTaken(before, p);
      while !closed
        invariant recv.Valid() && Left(mode, recv.Contents(), p, i) && delivered == before + p.frames[..i]
        invariant !closed ==> closesAt.Some? ==> i <= closesAt.value
        invariant closed ==> closesAt.Some? && closesAt.value + 1 == i
        decreases !closed, |recv.Contents()|
      {
        var packageLen := TakeOne(before, p, i);
        if packageLen < 0 {
          if packageLen == -2 {
            closed := true;
          }
          return;
        }
        if closesAt.Some? && closesAt.value == i {
          closed := true;
        }
        i := i + 1;
      }
    }

    // One turn: a whole frame, if there is one, leaves the ring. It is the i-th of those in p.
    method TakeOne(ghost before: seq<seq<byte>>, ghost p: Parsed, ghost i: nat) returns (n: int)
      requires recv.Valid() && Left(mode, recv.Contents(), p, i) && delivered == before + p.frames[..i]
      modifies this`delivered, recv`head
      ensures recv.Valid() && (n < 0 ==> n == -1 || n == -2)
      ensures n < 0 ==> delivered == old(delivered) && recv.Contents() == old(recv.Contents()) == p.rest
      ensures n < 0 ==> i == |p.frames| && (p.bad <==> n == -2)
      ensures n >= 0 ==> i < |p.frames| && delivered == before + p.frames[..i + 1]
      ensures n >= 0 ==> Left(mode, recv.Contents(), p, i + 1) && |recv.Contents()| < |old(recv.Contents())|
    {
      OneFurther(mode, recv.Contents(), p, i, before);
      n := Peek();
      if n >= 0 {
        var packet := recv.Read(n);
        delivered := delivered + [packet];
      }
    }

    // peekNextPackLen
    method Peek() returns (n: int)
      requires recv.Valid()
      ensures n == PeekNextPackLen(mode, recv.Contents())
    {
      recv.ReadableIsLength();
      var readable := recv.ReadableBytes();
      if readable < HeaderLen(mode) {
        return -1;
      }
      var hdr := recv.Peek(HeaderLen(mode));
      var msgLen := ReadInt32(hdr, 0);
      if msgLen > MAX_PACKET_SIZE - 4 {
        return -2;
      }
      if ReadInt32(hdr, MagicOffset(mode)) != MAGIC_NUM {
        return -2;
      }
      if msgLen > readable - 4 {
        return -1;
      }
      return msgLen + 4;
    }

    // If the stream consists of legal frames and the ring can hold each of them, the ring is never
    // full when the network asks for room.
    lemma NeverFull(frames: seq<seq<byte>>)
      requires Valid() && !closed && arrived <= Concat(frames)
      requires forall i | 0 <= i < |frames| :: Legal(mode, frames[i]) && |frames[i]| <= recv.Capacity()
      ensures |recv.Contents()| < recv.Capacity()
    {
      StreamIsParsed(mode, frames, arrived);
    }
  }

  // How many of the frames found the handler is given.
  function Handled(closesAt: Option<nat>, found: nat): (n: nat)
    ensures n <= found
  {
    if ClosedByHandler(closesAt, found) then closesAt.value + 1 else found
  }

  predicate ClosedByHandler(closesAt: Option<nat>, found: nat) {
    closesAt.Some? && closesAt.value < found
  }

  // What is still to be taken after i frames.
  ghost predicate Left(mode: ProtoMode, c: seq<byte>, p: Parsed, i: nat) {
    i <= |p.frames| && Drain(mode, c) == Parsed(p.frames[i..], p.rest, p.bad)
  }

  lemma NoneTaken(before: seq<seq<byte>>, p: Parsed)
    ensures before + p.frames[..0] == before && p.frames[0..] == p.frames
  {
  }

  lemma OneFurther(mode: ProtoMode, c: seq<byte>, p: Parsed, i: nat, before: seq<seq<byte>>)
    requires Left(mode, c, p, i)
    ensures var n := PeekNextPackLen(mode, c);
            && (n < 0 ==> i == |p.frames| && c == p.rest && (p.bad <==> n == -2))
            && (n >= 0 ==> i < |p.frames| && Left(mode, c[n..], p, i + 1))
            && (n >= 0 ==> before + p.frames[..i] + [c[..n]] == before + p.frames[..i + 1])
  {
    if PeekNextPackLen(mode, c) >= 0 {
      assert p.frames[i..][0] == p.frames[i] && p.frames[i..][1..] == p.frames[i + 1..];
    }
  }

  // From one end to the other: whatever part of what was handed to the network has arrived, in
  // whatever chunks, the delivered frames are the first accepted ones, whole and in order.
  lemma EndToEnd(s: Sender, r: Receiver)
    requires s.Valid() && r.Valid() && s.mode == r.mode && r.arrived <= s.handed
    ensures r.delivered <= s.accepted
    ensures !r.closed ==> Concat(r.delivered) + r.recv.Contents() == r.arrived
  {
    assert r.arrived <= Concat(s.accepted);
    StreamIsParsed(s.mode, s.accepted, r.arrived);
  }

  lemma NextChunk(arrived: seq<byte>, stream: seq<byte>, i: nat, n: nat)
    requires i + n <= |stream|
    ensures stream[i..][..n] == stream[i..i + n]
    ensures arrived + stream[..i] + stream[i..i + n] == arrived + stream[..i + n] <= arrived + stream
    ensures arrived + stream[..i] + stream[i..] == arrived + stream
  {
  }

  // The network takes some bytes of a stream of legal frames, which leaves the channel open.
  method ReceiveChunk(r: Receiver, stream: seq<byte>, ghost frames: seq<seq<byte>>) returns (n: nat)
    requires r.Valid() && !r.closed && r.arrived + stream <= Concat(frames) && stream != []
    requires forall i | 0 <= i < |frames| :: Legal(r.mode, frames[i]) && |frames[i]| <= r.recv.Capacity()
    modifies r, r.recv, r.recv.buf
    ensures r.Valid() && !r.closed && 0 < n <= |stream| && r.arrived == old(r.arrived) + stream[..n]
  {
    r.NeverFull(frames);
    var start, len := r.UvAlloc();
    n :| 0 < n <= len && n <= |stream|;
    NextChunk(r.arrived, stream, 0, n);
    StreamIsParsed(r.mode, frames, r.arrived + stream[..n]);
    r.UvRead(start, len, stream[..n], None);
  }

  // A stream of legal frames, each of which the ring can hold, is received however the network cuts it: the
  // channel stays open, and all whole frames are delivered.
  method ReceiveStream(r: Receiver, stream: seq<byte>, ghost frames: seq<seq<byte>>)
    requires r.Valid() && !r.closed && r.arrived + stream <= Concat(frames)
    requires forall i | 0 <= i < |frames| :: Legal(r.mode, frames[i]) && |frames[i]| <= r.recv.Capacity()
    modifies r, r.recv, r.recv.buf
    ensures r.Valid() && !r.closed && r.arrived == old(r.arrived) + stream
    ensures FindsFrames(Parsed(r.delivered, r.recv.Contents(), false), frames, r.arrived)
  {
    var i := 0;
    NextChunk(r.arrived, stream, 0, 0);
    while i < |stream|
      invariant r.Valid() && !r.closed && i <= |stream| && r.arrived == old(r.arrived) + stream[..i]
    {
      NextChunk(old(r.arrived), stream, i, 0);
      var n := ReceiveChunk(r, stream[i..], frames);
      NextChunk(old(r.arrived), stream, i, n);
      i := i + n;
    }
    StreamIsParsed(r.mode, frames, r.arrived);
  }
}
