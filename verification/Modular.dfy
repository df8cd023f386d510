/** Numbers reduced modulo a size: machine words, and the slots of a circular index.
 */
module Modular {
  // x modulo m, by repeated addition and subtraction; `x & (m - 1)` when m is a power of two.
  function Wrap(x: int, m: nat): (r: nat)
    requires m > 0
    ensures r < m
    decreases x < 0, if x < 0 then -x else x
  {
    if x < 0 then Wrap(x + m, m) else if x < m then x else Wrap(x - m, m)
  }

  lemma Multiples(d: int, m: int)
    requires m >= 0
    ensures d >= 1 ==> d * m >= m
    ensures d <= -1 ==> d * m <= -m
  {
    if d >= 1 {
      assert d * m == m + (d - 1) * m && (d - 1) * m >= 0;
    } else if d <= -1 {
      assert d * m == (d + 1) * m - m && (-d - 1) * m >= 0;
    }
  }

  lemma {:induction false} WrapSplit(x: int, m: nat) returns (q: int)
    requires m > 0
    ensures x == q * m + Wrap(x, m)
    decreases x < 0, if x < 0 then -x else x
  {
    if x < 0 {
      q := WrapSplit(x + m, m);
      q := q - 1;
    } else if x < m {
      q := 0;
    } else {
      q := WrapSplit(x - m, m);
      q := q + 1;
    }
  }

  lemma WrapIsUnique(x: int, q: int, r: nat, m: nat)
    requires x == q * m + r && r < m
    ensures Wrap(x, m) == r
  {
    var q' := WrapSplit(x, m);
    assert (q' - q) * m == r - Wrap(x, m);
    Multiples(q' - q, m);
  }

  // Two of at most m consecutive numbers do not share a remainder.
  lemma WrapsDiffer(a: int, b: int, m: nat)
    requires a < b < a + m
    ensures Wrap(a, m) != Wrap(b, m)
  {
    var qa := WrapSplit(a, m);
    var qb := WrapSplit(b, m);
    assert b - a == (qb - qa) * m + (Wrap(b, m) - Wrap(a, m));
    Multiples(qb - qa, m);
  }

  lemma WrapMove(a: int, d: int, m: nat)
    requires m > 0
    ensures Wrap(Wrap(a, m) + d, m) == Wrap(a + d, m)
  {
    var q := WrapSplit(a, m);
    var q' := WrapSplit(a + d, m);
    assert Wrap(a, m) + d == (q' - q) * m + Wrap(a + d, m);
    WrapIsUnique(Wrap(a, m) + d, q' - q, Wrap(a + d, m), m);
  }
}
