/** The bounded byte ring under every connection: one slot of a power-of-two array stays free, and
    the two indexes wrap around.
 */
module Ring {
  import opened Common

  // What lies between the two indexes.
  function Between(buf: seq<byte>, head: nat, tail: nat): seq<byte>
    requires head < |buf| && tail < |buf|
  {
    if head <= tail then buf[head..tail] else buf[head..] + buf[..tail]
  }

  // `x & mask` for an index that was moved by at most the capacity.
  function Wrapped(x: nat, cap: nat): nat {
    if x >= cap then x - cap else x
  }

  // The smallest power of two that is at least n.
  function CeilToPowerOfTwo(n: nat): (p: nat)
    requires n > 0
    ensures n <= p && IsPowerOfTwo(p)
    decreases n
  {
    if n == 1 then 1 else 2 * CeilToPowerOfTwo((n + 1) / 2)
  }

  lemma {:induction false} CeilIsSmallest(n: nat)
    requires n > 0
    ensures CeilToPowerOfTwo(n) < 2 * n
  {
    if n > 2 {
      var h := CeilToPowerOfTwo((n + 1) / 2);
      CeilIsSmallest((n + 1) / 2);
      assert h % 2 == 0;
    }
  }

  ghost predicate IsPowerOfTwo(p: nat) { p == 1 || (p > 0 && p % 2 == 0 && IsPowerOfTwo(p / 2)) }

  // The k-th slot from index i on.
  function Cell(buf: seq<byte>, i: nat, k: nat): byte
    requires i < |buf| && k < |buf|
  {
    buf[Wrapped(i + k, |buf|)]
  }

  lemma BetweenAt(buf: seq<byte>, head: nat, tail: nat)
    requires head < |buf| && tail < |buf|
    ensures |Between(buf, head, tail)| == Wrapped(tail + |buf| - head, |buf|)
    ensures forall k | 0 <= k < |Between(buf, head, tail)| :: Between(buf, head, tail)[k] == Cell(buf, head, k)
  {
  }

  // Bytes are put after the tail, and what was readable stays.
  lemma AppendBetween(buf: seq<byte>, head: nat, tail: nat, s: seq<byte>, after: seq<byte>)
    requires head < |buf| && tail < |buf| == |after| && |Between(buf, head, tail)| + |s| < |buf|
    requires forall k | 0 <= k < |s| :: Cell(after, tail, k) == s[k]
    requires forall k | 0 <= k < |Between(buf, head, tail)| :: Cell(after, head, k) == Cell(buf, head, k)
    ensures Between(after, head, Wrapped(tail + |s|, |buf|)) == Between(buf, head, tail) + s
  {
    var tail' := Wrapped(tail + |s|, |buf|);
    BetweenAt(buf, head, tail);
    BetweenAt(after, head, tail');
    var n := |Between(buf, head, tail)|;
    assert |Between(after, head, tail')| == n + |s|;
    forall k | 0 <= k < n + |s|
      ensures Between(after, head, tail')[k] == (Between(buf, head, tail) + s)[k]
    {
      if k >= n {
        SameCell(head, tail, |buf|, k);
        assert Cell(after, head, k) == Cell(after, tail, k - n);
      } else {
        assert Cell(after, head, k) == Cell(buf, head, k);
      }
    }
  }

  // Counting from the head or from the tail.
  lemma SameCell(head: nat, tail: nat, cap: nat, k: nat)
    requires head < cap && tail < cap && Wrapped(tail + cap - head, cap) <= k < cap
    ensures Wrapped(head + k, cap) == Wrapped(tail + (k - Wrapped(tail + cap - head, cap)), cap)
  {
  }

  // The bytes are copied in two pieces, the second to the start of the array.
  lemma TwoPieces(buf: seq<byte>, head: nat, tail: nat, s: seq<byte>, first: nat, after: seq<byte>)
    requires head < |buf| && tail < |buf| && |Between(buf, head, tail)| + |s| < |buf|
    requires first == (if |s| <= |buf| - tail then |s| else |buf| - tail) && |s| - first <= tail
    requires after == s[first..] + buf[|s| - first..tail] + s[..first] + buf[tail + first..]
    ensures Between(after, head, Wrapped(tail + |s|, |buf|)) == Between(buf, head, tail) + s
  {
    BetweenAt(buf, head, tail);
    AppendBetween(buf, head, tail, s, after);
  }

  lemma DropBetween(buf: seq<byte>, head: nat, tail: nat, n: nat)
    requires head < |buf| && tail < |buf| && n <= |Between(buf, head, tail)|
    ensures Between(buf, Wrapped(head + n, |buf|), tail) == Between(buf, head, tail)[n..]
    ensures var first := if n <= |buf| - head then n else |buf| - head;
            Between(buf, head, tail)[..n] == buf[head..head + first] + buf[..n - first]
  {
  }

  class RingByteBuf {
    const buf: array<byte>
    var head: nat
    var tail: nat

    ghost predicate Valid()
      reads this
    {
      head < buf.Length && tail < buf.Length && 2 <= buf.Length
    }

    ghost function Contents(): seq<byte>
      requires Valid()
      reads this, buf
    {
      Between(buf[..], head, tail)
    }

    // `capacity()`
    function Capacity(): nat
      requires buf.Length > 0
    {
      buf.Length - 1
    }

    constructor (capacity: nat)
      requires 0 < capacity
      ensures Valid() && Contents() == [] && fresh(buf)
      ensures capacity <= Capacity() <= 2 * capacity && IsPowerOfTwo(buf.Length)
    {
      head, tail := 0, 0;
      var cap := CeilToPowerOfTwo(capacity + 1);
      CeilIsSmallest(capacity + 1);
      buf := new byte[cap](_ => 0);
    }

    function ReadableBytes(): (n: nat)
      requires Valid()
      reads this
      ensures n <= Capacity()
    {
      Wrapped(tail + buf.Length - head, buf.Length)
    }

    function WritableBytes(): nat
      requires Valid()
      reads this
    {
      Capacity() - ReadableBytes()
    }

    lemma ReadableIsLength()
      requires Valid()
      ensures ReadableBytes() == |Contents()|
    {
    }

    static method CopyTwice(buf: array<byte>, tail: nat, src: seq<byte>, first: nat)
      requires tail + first <= buf.Length && first <= |src| && |src| - first <= tail
      modifies buf
      ensures buf[..] == src[first..] + old(buf[|src| - first..tail]) + src[..first] + old(buf[tail + first..])
    {
      ghost var was, m := buf[..], |src| - first;
      CopyIn(buf, tail, src[..first]);
      ghost var mid := buf[..];
      assert mid[m..] == was[m..tail] + src[..first] + was[tail + first..];
      CopyIn(buf, 0, src[first..]);
    }

    // A write that fits.
    method Write(src: seq<byte>)
      requires Valid() && |src| <= WritableBytes()
      modifies `tail, buf
      ensures Valid() && Contents() == old(Contents()) + src && WritableBytes() == old(WritableBytes()) - |src|
    {
      ReadableIsLength();
      var ok := TryWrite(src);
      ReadableIsLength();
    }

    // The first readable bytes lie in one piece up to the end of the array.
    lemma LinearPrefix(n: nat)
      requires Valid() && n <= |Contents()| && head + n <= buf.Length
      ensures buf[head..head + n] == Contents()[..n]
    {
      DropBetween(buf[..], head, tail, n);
      assert buf[..][head..head + n] == buf[head..head + n];
    }

    // The window at the tail holds nothing that is readable.
    lemma WindowIsFree(n: nat)
      requires Valid() && n <= WritableBytes() && tail + n <= buf.Length
      ensures head <= tail || tail + n <= head
    {
    }

    // Bytes put into the window change nothing that is readable.
    lemma SameReadable(was: seq<byte>, s: seq<byte>)
      requires Valid() && |was| == buf.Length && tail + |s| <= buf.Length && |s| <= WritableBytes()
      requires buf[..] == was[..tail] + s + was[tail + |s|..]
      ensures Contents() == Between(was, head, tail) && buf[tail..tail + |s|] == s
    {
      assert buf[tail..tail + |s|] == buf[..][tail..tail + |s|];
    }

    method TryWrite(src: seq<byte>) returns (ok: bool)
      requires Valid()
      modifies `tail, buf
      ensures Valid() && (ok <==> |src| <= old(WritableBytes()))
      ensures Contents() == if ok then old(Contents()) + src else old(Contents())
    {
      if src == [] {
        return true;
      }
      ReadableIsLength();
      if |src| > WritableBytes() {
        return false;
      }
      ghost var was := buf[..];
      BetweenAt(was, head, tail);
      var first := if |src| <= buf.Length - tail then |src| else buf.Length - tail;
      CopyTwice(buf, tail, src, first);
      TwoPieces(was, head, tail, src, first, buf[..]);
      tail := Wrapped(tail + |src|, buf.Length);
      return true;
    }

    method Peek(len: nat) returns (dst: seq<byte>)
      requires Valid()
      ensures dst == if len <= |Contents()| then Contents()[..len] else Contents()
    {
      ReadableIsLength();
      var toread := if len <= ReadableBytes() then len else ReadableBytes();
      var first := if toread <= buf.Length - head then toread else buf.Length - head;
      DropBetween(buf[..], head, tail, toread);
      return buf[head..head + first] + buf[..toread - first];
    }

    method Read(len: nat) returns (dst: seq<byte>)
      requires Valid()
      modifies `head
      ensures Valid()
      ensures dst == if len <= |old(Contents())| then old(Contents())[..len] else old(Contents())
      ensures Contents() == old(Contents())[|dst|..]
    {
      dst := Peek(len);
      DropBetween(buf[..], head, tail, |dst|);
      head := Wrapped(head + |dst|, buf.Length);
    }

    // The longest run of readable bytes that does not wrap: its start and length.
    method LinearReadable() returns (start: nat, len: nat)
      requires Valid()
      ensures start == head && start + len <= buf.Length && len <= |Contents()|
      ensures buf[start..start + len] == Contents()[..len]
      ensures len == |Contents()| || start + len == buf.Length
      ensures len == 0 <==> Contents() == []
    {
      ReadableIsLength();
      start := head;
      len := if ReadableBytes() <= buf.Length - head then ReadableBytes() else buf.Length - head;
    }

    // The longest run of room that does not wrap.
    method LinearWritable() returns (start: nat, len: nat)
      requires Valid()
      ensures start == tail && start + len <= buf.Length && len <= WritableBytes()
      ensures len == WritableBytes() || start + len == buf.Length
      ensures len == 0 <==> |Contents()| == Capacity()
    {
      ReadableIsLength();
      start := tail;
      len := if WritableBytes() <= buf.Length - tail then WritableBytes() else buf.Length - tail;
    }

    method AdvanceReadIndex(n: nat) returns (ok: bool)
      requires Valid()
      modifies `head
      ensures Valid() && (ok <==> n <= |old(Contents())|)
      ensures Contents() == if ok then old(Contents())[n..] else old(Contents())
    {
      ReadableIsLength();
      if n > ReadableBytes() {
        return false;
      }
      DropBetween(buf[..], head, tail, n);
      head := Wrapped(head + n, buf.Length);
      return true;
    }

    // Someone else has put the bytes into the window; this makes them readable.
    method AdvanceWriteIndex(n: nat) returns (ok: bool)
      requires Valid()
      modifies `tail
      ensures Valid() && (ok <==> n <= old(WritableBytes()))
      ensures tail == if ok then Wrapped(old(tail) + n, buf.Length) else old(tail)
      ensures ok && old(tail) + n <= buf.Length ==>
                Contents() == old(Contents()) + buf[old(tail)..old(tail) + n]
    {
      ReadableIsLength();
      if n > WritableBytes() {
        return false;
      }
      if tail + n <= buf.Length {
        AppendBetween(buf[..], head, tail, buf[tail..tail + n], buf[..]);
      }
      tail := Wrapped(tail + n, buf.Length);
      return true;
    }
  }
}
