/** The growing output buffer of the protobuf runtime: inline up to 16 bytes, then on the heap, with
    length prefixes that are inserted after the bytes they count.
 */
module Buffer {
  import opened Common
  import opened Words
  import opened Varint
  import opened Wire

  const SSO_SIZE: nat := 16 // sizeof(pb_HeapBuffer)

  // Room was made at len by moving what follows, and b was put there.
  lemma PutBetween(was: seq<byte>, len: nat, b: seq<byte>, moved: seq<byte>, after: seq<byte>)
    requires len <= |was| && |was| + |b| <= |moved|
    requires moved[..len] == was[..len] && moved[len + |b|..|was| + |b|] == was[len..]
    requires after == moved[..len] + b + moved[len + |b|..]
    ensures after[..|was| + |b|] == was[..len] + b + was[len..]
  {
    assert moved[len + |b|..][..|was| - len] == moved[len + |b|..|was| + |b|];
  }

  // The bytes from len on move up, and b goes before them.
  method Insert(buff: array<byte>, len: nat, size: nat, b: seq<byte>)
    requires len <= size && size + |b| <= buff.Length
    modifies buff
    ensures buff[..size + |b|] == old(buff[..len]) + b + old(buff[len..size])
  {
    ghost var was := buff[..size];
    assert was[..len] == buff[..len] && was[len..] == buff[len..size];
    MoveUp(buff, len, size, |b|);
    ghost var moved := buff[..];
    assert moved[..len] == buff[..len] && moved[len + |b|..size + |b|] == buff[len + |b|..size + |b|];
    CopyIn(buff, len, b);
    PutBetween(was, len, b, moved, buff[..]);
  }

  class ByteBuffer {
    var size: nat
    var heap: bool
    var buff: array<byte> // inline while !heap

    ghost predicate Valid()
      reads this
    {
      size <= buff.Length && (!heap ==> buff.Length == SSO_SIZE) && SSO_SIZE <= buff.Length
    }

    ghost function Contents(): seq<byte>
      requires Valid()
      reads this, buff
    {
      buff[..size]
    }

    constructor ()
      ensures Valid() && Contents() == [] && fresh(buff)
    {
      size, heap := 0, false;
      buff := new byte[SSO_SIZE](_ => 0);
    }

    // pb_prepbuffsize: the capacity grows by half from the inline size on.
    method PrepBuffSize(len: nat)
      requires Valid()
      modifies this
      ensures Valid() && size == old(size) && Contents() == old(Contents())
      ensures size + len <= buff.Length && (buff == old(buff) || fresh(buff))
      ensures buff != old(buff) <==> size + len > old(buff.Length)
      ensures buff != old(buff) ==> heap && 2 * buff.Length < 3 * (size + len)
    {
      if size + len > buff.Length {
        var expected := size + len;
        var newsize := SSO_SIZE;
        while newsize < expected
          invariant SSO_SIZE <= newsize
          invariant newsize == SSO_SIZE || 2 * newsize < 3 * expected
        {
          newsize := newsize + newsize / 2;
        }
        var newp := new byte[newsize](_ => 0);
        var i := 0;
        while i < size
          invariant 0 <= i <= size
          invariant newp[..i] == buff[..i]
          modifies newp
        {
          newp[i] := buff[i];
          i := i + 1;
        }
        heap := true;
        buff := newp;
      }
    }

    // pb_addslice
    method AddSlice(s: seq<byte>)
      requires Valid()
      modifies this, buff
      ensures Valid() && (buff == old(buff) || fresh(buff))
      ensures Contents() == old(Contents()) + s
    {
      PrepBuffSize(|s|);
      CopyIn(buff, size, s);
      size := size + |s|;
    }

    // pb_addvarint32 and pb_addvarint64: the length of what was added.
    method AddVarint32(n: nat) returns (len: nat)
      requires Valid() && n < 0x1_0000_0000
      modifies this, buff
      ensures Valid() && (buff == old(buff) || fresh(buff))
      ensures Contents() == old(Contents()) + Encode(n) && len == |Encode(n)|
    {
      PrepBuffSize(5);
      var b := Write32(n);
      AddSlice(b);
      return |b|;
    }

    method AddVarint64(n: nat) returns (len: nat)
      requires Valid() && n < 0x1_0000_0000_0000_0000
      modifies this, buff
      ensures Valid() && (buff == old(buff) || fresh(buff))
      ensures Contents() == old(Contents()) + Encode(n) && len == |Encode(n)|
    {
      PrepBuffSize(10);
      var b := Write64(n);
      AddSlice(b);
      return |b|;
    }

    // pb_addfixed32 and pb_addfixed64
    method AddFixed(v: nat, k: nat) returns (len: nat)
      requires Valid()
      modifies this, buff
      ensures Valid() && (buff == old(buff) || fresh(buff))
      ensures Contents() == old(Contents()) + Fixed(v, k) && len == k
    {
      PrepBuffSize(k);
      var n, i, b := v, 0, [];
      while i < k
        invariant 0 <= i <= k && |b| == i
        invariant b + Fixed(n, k - i) == Fixed(v, k)
      {
        assert b + Fixed(n, k - i) == b + [n % 0x100] + Fixed(n / 0x100, k - i - 1);
        b := b + [n % 0x100];
        n := n / 0x100;
        i := i + 1;
      }
      assert b + Fixed(n, 0) == b;
      AddSlice(b);
      return k;
    }

    // pb_addbytes: a slice with its length in front.
    method AddBytes(s: seq<byte>) returns (len: nat)
      requires Valid()
      modifies this, buff
      ensures Valid() && (buff == old(buff) || fresh(buff))
      ensures Contents() == old(Contents()) + Prefixed(s) && len == |Prefixed(s)|
      ensures |s| < 0x1_0000_0000 ==> Prefixed(s) == Delimited(s)
    {
      PrepBuffSize(|s| + 5);
      len := AddVarint32(U32(|s|));
      ghost var was := Contents();
      AddSlice(s);
      assert was + s == old(Contents()) + Prefixed(s);
      return len + |s|;
    }

    // `b->size -= n`: the last n bytes are dropped.
    method Drop(n: nat)
      requires Valid() && n <= size
      modifies `size
      ensures Valid() && Contents() == old(Contents())[..old(size) - n]
    {
      size := size - n;
    }

    // pb_addlength: everything after the first len bytes becomes a length-delimited record.
    method AddLength(len: nat) returns (ml: nat)
      requires Valid()
      modifies this, buff
      ensures Valid() && (buff == old(buff) || fresh(buff))
      ensures ml == 0 <==> old(size) < len
      ensures Contents() == if old(size) < len then old(Contents())
                            else old(Contents())[..len] + Delimited(old(Contents())[len..])
    {
      if size < len {
        return 0;
      }
      var b := Write64(U64(size - len));
      ml := |b|;
      PrepBuffSize(ml);
      InsertPrefix(len, b);
    }

    method InsertPrefix(len: nat, b: seq<byte>)
      requires Valid() && len <= size && size + |b| <= buff.Length && b == Encode(U64(size - len))
      modifies `size, buff
      ensures Valid() && Contents() == old(Contents())[..len] + Delimited(old(Contents())[len..])
    {
      ghost var was := Contents();
      assert buff[..len] == was[..len] && buff[len..size] == was[len..];
      Insert(buff, len, size, b);
      size := size + |b|;
      assert was[..len] + b + was[len..] == was[..len] + Delimited(was[len..]);
    }
  }
}
