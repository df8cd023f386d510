/** What several modules use: optional values, values read from bytes, bytes and copying them, and the
    sizes of finite sets. */
module Common {
  datatype Option<+T> = None | Some(value: T)

  // A value and the number of bytes it was read from.
  datatype Got<+T> = Got(value: T, size: nat)

  type byte = x: int | 0 <= x < 256

  // memcpy
  method CopyIn(buff: array<byte>, at: nat, s: seq<byte>)
    requires at + |s| <= buff.Length
    modifies buff
    ensures buff[..] == old(buff[..at]) + s + old(buff[at + |s|..])
  {
    var i := 0;
    while i < |s|
      invariant 0 <= i <= |s|
      invariant buff[..at] == old(buff[..at]) && buff[at + |s|..] == old(buff[at + |s|..])
      invariant buff[at..at + i] == s[..i]
    {
      buff[at + i] := s[i];
      i := i + 1;
    }
  }

  // memmove of buff[len..size], ml places up
  method MoveUp(buff: array<byte>, len: nat, size: nat, ml: nat)
    requires len <= size && size + ml <= buff.Length
    modifies buff
    ensures buff[..len] == old(buff[..len]) && buff[len + ml..size + ml] == old(buff[len..size])
  {
    ghost var was := buff[..];
    var i := size;
    while i > len
      invariant len <= i <= size
      invariant buff[..i] == was[..i] && buff[i + ml..size + ml] == was[i..size]
    {
      i := i - 1;
      buff[i + ml] := buff[i];
      assert buff[i + ml..size + ml] == [was[i]] + was[i + 1..size];
    }
  }

  // ---- Finite sets of numbers ----

  ghost predicate IsRange(r: set<nat>, lo: nat, hi: nat) {
    forall u: nat :: u in r <==> lo <= u < hi
  }

  lemma {:induction false} Range(lo: nat, hi: nat) returns (r: set<nat>)
    requires lo <= hi
    ensures IsRange(r, lo, hi) && |r| == hi - lo
    decreases hi - lo
  {
    r := {};
    if lo < hi {
      r := Range(lo, hi - 1);
      r := r + {hi - 1};
    }
  }

  lemma SubsetSize(a: set<nat>, b: set<nat>)
    requires a <= b
    ensures |a| <= |b| && (|a| == |b| ==> a == b)
  {
    assert b == a + (b - a);
  }
}
