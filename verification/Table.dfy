/** The chained scatter table of the protobuf runtime: all entries live in one array, and entries
    whose keys collide are chained by relative `next` offsets. A new key whose main slot is taken
    goes to a free slot, unless the occupant is there only as a member of another chain: then the
    occupant moves.

    Offsets count slots, not bytes. A value of 0 stands for a payload of zero bytes. Key 0 marks an
    empty slot, and as a key of its own it always lives in slot 0.
 */
module Table {
  import opened Common

  const MIN_SIZE: nat := 8 // PB_MIN_HASHTABLE_SIZE

  datatype Slot = Slot(next: int, key: int, value: int)

  // What the scan for a free slot passes over.
  predicate Used(s: Slot) { s.key != 0 || s.next != 0 }

  // pbT_hash: the slot at which the search for a key starts. The size is a power of two.
  function Main(key: int, size: nat): (m: nat)
    requires size > 1
    ensures m < size && (key != 0 ==> m != 0)
  {
    var h := key * 2654435761 % 0x1_0000_0000_0000_0000 % size;
    if key != 0 && h == 0 then 1 else h
  }

  // The table, and for the specification: which chain each slot belongs to, its rank in it, and
  // the slot of each key other than 0.
  datatype State = State(slots: seq<Slot>, lastfree: nat, hasZero: bool,
                         chain: seq<nat>, rank: seq<real>, home: map<int, nat>)
  {
    ghost predicate Shape() {
      && |chain| == |slots| && |rank| == |slots| && lastfree <= |slots|
      && (|slots| == 0 || MIN_SIZE <= |slots|)
    }

    function Target(i: nat): int
      requires i < |slots|
    {
      i + slots[i].next
    }

    ghost predicate SameChain(i: nat, j: nat)
      requires Shape() && i < |slots| && j < |slots|
    {
      chain[i] == chain[j]
    }

    ghost predicate Below(i: nat, j: nat)
      requires Shape() && i < |slots| && j < |slots|
    {
      SameChain(i, j) && rank[i] < rank[j]
    }

    // `next` leads up the chain, never to slot 0.
    ghost predicate LinkOk(i: nat)
      requires Shape() && i < |slots|
    {
      slots[i].next != 0 ==> 0 < Target(i) < |slots| && Below(i, Target(i))
    }

    // No slot of the chain lies between a slot and its `next`.
    ghost predicate PairOk(i: nat, j: nat)
      requires Shape() && i < |slots| && j < |slots|
    {
      && (i != j && SameChain(i, j) ==> rank[i] != rank[j])
      && (Below(i, j) ==> slots[i].next != 0 && 0 < Target(i) < |slots| && rank[Target(i)] <= rank[j])
      && (i < lastfree ==> !Below(j, i))
    }

    ghost predicate ChainsOk() {
      && Shape()
      && (forall i | 0 <= i < |slots| :: LinkOk(i))
      && (forall i, j | 0 <= i < |slots| && 0 <= j < |slots| :: PairOk(i, j))
    }

    ghost predicate Live(i: nat) { i < |slots| && slots[i].key != 0 }

    // A key is stored once, and its payload is NULL unless it is.
    ghost predicate KeysOk() {
      && (forall k | k in home :: home[k] < |slots| && slots[home[k]].key == k && k != 0)
      && (forall i: nat | Live(i) :: slots[i].key in home && home[slots[i].key] == i)
      && (forall i | 0 < i < |slots| && !Live(i) :: slots[i].value == 0)
      && (|slots| > 0 ==> slots[0].key == 0)
      && (hasZero ==> |slots| > 0)
    }

    // The slot where the search for slot i's key starts.
    ghost function Start(i: nat): (m: nat)
      requires Shape() && Live(i)
      ensures 0 < m < |slots|
    {
      Main(slots[i].key, |slots|)
    }

    // A key can be reached from its main slot, and no key of another main slot sits there.
    ghost predicate MainOk(i: nat)
      requires Shape() && Live(i)
    {
      && (Start(i) == i || Below(Start(i), i))
      && (Live(Start(i)) ==> Start(Start(i)) == Start(i))
    }

    ghost predicate Ok() {
      ChainsOk() && KeysOk() && forall i: nat | Live(i) :: MainOk(i)
    }

    // A slot in no chain but its own.
    ghost predicate Alone(i: nat)
      requires Shape() && i < |slots|
    {
      forall j | 0 <= j < |slots| && chain[j] == chain[i] :: j == i
    }

    ghost predicate Free(f: nat) {
      && Shape() && 0 < f < |slots| && slots[f].key == 0 && slots[f].next == 0
      && lastfree <= f && Alone(f)
    }

    // No slot at or above lastfree is empty, and no slot was ever cleared.
    ghost predicate FullFrom(low: nat) {
      && (forall i | 0 <= i < |slots| && slots[i].next != 0 :: slots[i].key != 0)
      && (forall i | 0 < i < |slots| && low <= i :: slots[i].key != 0)
    }

    // There is room for one more key without a resize.
    ghost predicate Roomy() { Ok() && FullFrom(lastfree) && |home| + 1 < |slots| }

    // ---- The three ways to place a new key ----

    // Its main slot is empty.
    ghost function Placed(key: int): State
      requires Shape() && |slots| > 0
    {
      var m := Main(key, |slots|);
      this.(slots := slots[m := slots[m].(key := key, value := 0)], home := home[key := m])
    }

    // Its main slot holds a key that belongs there: it goes to the free slot f, linked in next.
    ghost function Chained(key: int, f: nat): State
      requires Shape() && |slots| > 0 && f < |slots|
    {
      var m := Main(key, |slots|);
      var n := slots[m].next;
      var top := if n == 0 then rank[m] + 1.0
                 else if 0 <= Target(m) < |slots| then (rank[m] + rank[Target(m)]) / 2.0 else 0.0;
      this.(slots := slots[f := Slot(if n == 0 then 0 else m - f + n, key, 0)]
                          [m := slots[m].(next := f - m)],
            chain := chain[f := chain[m]], rank := rank[f := top], home := home[key := f])
    }

    // Its main slot m holds a key from another chain, after slot p: that key moves to f.
    ghost function Displaced(key: int, f: nat, p: nat): State
      requires Shape() && |slots| > 0 && f < |slots| && p < |slots|
    {
      var m := Main(key, |slots|);
      var n := slots[m].next;
      this.(slots := slots[p := slots[p].(next := f - p)]
                          [f := slots[m].(next := if n == 0 then 0 else n + m - f)]
                          [m := Slot(0, key, 0)],
            chain := chain[f := chain[m]][m := chain[f]],
            rank := rank[f := rank[m]][m := 0.0],
            home := home[slots[m].key := f][key := m])
    }
  }

  // The finite map that the table is meant to be.
  ghost function Contents(s: State): (m: map<int, int>)
    requires s.KeysOk()
    ensures m.Keys == s.home.Keys
  {
    map k | k in s.home :: s.slots[s.home[k]].value
  }

  // ---- Each way keeps the invariant ----

  // Only keys and payloads differ.
  lemma SameChains(s: State, s': State)
    requires s.ChainsOk() && |s'.slots| == |s.slots|
    requires s'.chain == s.chain && s'.rank == s.rank && s'.lastfree <= s.lastfree
    requires forall i | 0 <= i < |s.slots| :: s'.slots[i].next == s.slots[i].next
    ensures s'.ChainsOk()
  {
    forall i | 0 <= i < |s.slots| ensures s'.LinkOk(i) {
      assert s.LinkOk(i);
    }
    forall i, j | 0 <= i < |s.slots| && 0 <= j < |s.slots| ensures s'.PairOk(i, j) {
      assert s.PairOk(i, j);
    }
  }

  // One more key, with a payload of zero bytes; the other payloads move with their keys.
  lemma ContentsExtended(s: State, s': State, key: int)
    requires s.KeysOk() && s'.KeysOk() && s'.home.Keys == s.home.Keys + {key}
    requires forall k | k in s.home && k != key :: s'.slots[s'.home[k]].value == s.slots[s.home[k]].value
    requires s'.slots[s'.home[key]].value == 0
    ensures Contents(s') == Contents(s)[key := 0]
  {
    assert key in s'.home.Keys;
  }

  ghost predicate CanPlace(s: State, key: int) {
    s.Ok() && |s.slots| > 0 && key != 0 && key !in s.home && !s.Live(Main(key, |s.slots|))
  }

  lemma PlacedKeys(s: State, key: int)
    requires CanPlace(s, key)
    ensures s.Placed(key).KeysOk()
  {
  }

  lemma PlacedMain(s: State, key: int, i: nat)
    requires CanPlace(s, key) && s.Placed(key).Live(i)
    ensures s.Placed(key).MainOk(i)
  {
    if i != Main(key, |s.slots|) {
      assert s.MainOk(i);
    }
  }

  lemma PlacedOk(s: State, key: int)
    requires CanPlace(s, key)
    ensures s.Placed(key).Ok()
    ensures Contents(s.Placed(key)) == Contents(s)[key := 0]
  {
    var s' := s.Placed(key);
    SameChains(s, s');
    PlacedKeys(s, key);
    ContentsExtended(s, s', key);
    forall i: nat | s'.Live(i) ensures s'.MainOk(i) {
      PlacedMain(s, key, i);
    }
  }

  ghost predicate CanChain(s: State, key: int, f: nat) {
    && s.Ok() && s.Free(f) && key != 0 && key !in s.home
    && s.Live(Main(key, |s.slots|)) && s.Start(Main(key, |s.slots|)) == Main(key, |s.slots|)
  }

  lemma ChainedLinks(s: State, key: int, f: nat)
    requires CanChain(s, key, f)
    ensures forall i | 0 <= i < |s.slots| :: s.Chained(key, f).LinkOk(i)
  {
    var s' := s.Chained(key, f);
    var m := Main(key, |s.slots|);
    assert s.LinkOk(m);
    forall i | 0 <= i < |s.slots| ensures s'.LinkOk(i) {
      assert s.LinkOk(i);
      if i != m && i != f {
        assert s.slots[i].next != 0 ==> s.Target(i) != f by {
          assert s.SameChain(f, i) ==> i == f;
        }
      }
    }
  }

  lemma ChainedPair(s: State, key: int, f: nat, i: nat, j: nat)
    requires CanChain(s, key, f) && i < |s.slots| && j < |s.slots|
    ensures s.Chained(key, f).PairOk(i, j)
  {
    var s' := s.Chained(key, f);
    var m := Main(key, |s.slots|);
    assert s.LinkOk(m) && s.LinkOk(i);
    assert s.PairOk(m, j) && s.PairOk(i, m) && s.PairOk(i, j) && s.PairOk(m, i) && s.PairOk(j, m);
    assert s.SameChain(f, i) ==> i == f;
    assert s.SameChain(f, j) ==> j == f;
    assert s.SameChain(f, m) ==> m == f;
  }

  lemma ChainedKeys(s: State, key: int, f: nat)
    requires CanChain(s, key, f)
    ensures s.Chained(key, f).KeysOk()
  {
  }

  lemma ChainedMain(s: State, key: int, f: nat, i: nat)
    requires CanChain(s, key, f) && s.Chained(key, f).Live(i)
    ensures s.Chained(key, f).MainOk(i)
  {
    if i == f {
      assert s.LinkOk(Main(key, |s.slots|));
    } else {
      assert s.MainOk(i);
    }
  }

  lemma ChainedOk(s: State, key: int, f: nat)
    requires CanChain(s, key, f)
    ensures s.Chained(key, f).Ok()
    ensures Contents(s.Chained(key, f)) == Contents(s)[key := 0]
  {
    var s' := s.Chained(key, f);
    ChainedLinks(s, key, f);
    forall i, j | 0 <= i < |s.slots| && 0 <= j < |s.slots| ensures s'.PairOk(i, j) {
      ChainedPair(s, key, f, i, j);
    }
    ChainedKeys(s, key, f);
    ContentsExtended(s, s', key);
    forall i: nat | s'.Live(i) ensures s'.MainOk(i) {
      ChainedMain(s, key, f, i);
    }
  }

  // Slot p is the predecessor of the main slot, which holds a key of another chain.
  ghost predicate CanDisplace(s: State, key: int, f: nat, p: nat) {
    && s.Ok() && s.Free(f) && key != 0 && key !in s.home
    && var m := Main(key, |s.slots|);
       && s.Live(m) && s.Start(m) != m
       && p < |s.slots| && s.slots[p].next != 0 && s.Target(p) == m
  }

  lemma DisplacedLinks(s: State, key: int, f: nat, p: nat)
    requires CanDisplace(s, key, f, p)
    ensures forall i | 0 <= i < |s.slots| :: s.Displaced(key, f, p).LinkOk(i)
  {
    var s' := s.Displaced(key, f, p);
    var m := Main(key, |s.slots|);
    assert s.LinkOk(m) && s.LinkOk(p);
    forall i | 0 <= i < |s.slots| ensures s'.LinkOk(i) {
      assert s.LinkOk(i);
      if i != m && i != f && i != p && s.slots[i].next != 0 {
        assert s.Target(i) != f by {
          assert s.SameChain(f, i) ==> i == f;
        }
        assert s.Target(i) != m by {
          assert s.PairOk(i, p) && s.PairOk(p, i);
        }
      }
    }
  }

  // The main slot is now alone.
  lemma DisplacedPairNew(s: State, key: int, f: nat, p: nat, j: nat)
    requires CanDisplace(s, key, f, p) && j < |s.slots|
    ensures var m := Main(key, |s.slots|);
            s.Displaced(key, f, p).PairOk(m, j) && s.Displaced(key, f, p).PairOk(j, m)
  {
    var m := Main(key, |s.slots|);
    assert m != f && !s.SameChain(f, m);
    assert j != f ==> !s.SameChain(f, j);
    assert s.Displaced(key, f, p).SameChain(m, j) ==> j == m;
  }

  // Slot f stands where the main slot m stood.
  function Stood(m: nat, f: nat, i: nat): nat {
    if i == f then m else i
  }

  lemma DisplacedView(s: State, key: int, f: nat, p: nat, i: nat)
    requires CanDisplace(s, key, f, p) && i < |s.slots| && i != Main(key, |s.slots|)
    ensures var m := Main(key, |s.slots|);
            var s' := s.Displaced(key, f, p);
            var v := Stood(m, f, i);
            && s'.chain[i] == s.chain[v] && s'.rank[i] == s.rank[v]
            && (s'.slots[i].next == 0 <==> s.slots[v].next == 0)
            && (s.slots[v].next != 0 ==>
                  && 0 < s'.Target(i) < |s.slots| && s'.Target(i) != m
                  && Stood(m, f, s'.Target(i)) == s.Target(v))
  {
    var m := Main(key, |s.slots|);
    var v := Stood(m, f, i);
    assert s.LinkOk(p) && s.LinkOk(v);
    assert s.slots[v].next != 0 ==> s.Target(v) != f by {
      assert s.SameChain(f, v) ==> v == f;
    }
    assert v != p && s.slots[v].next != 0 ==> s.Target(v) != m by {
      assert s.PairOk(v, p) && s.PairOk(p, v);
    }
  }

  lemma DisplacedPairOld(s: State, key: int, f: nat, p: nat, i: nat, j: nat)
    requires CanDisplace(s, key, f, p) && i < |s.slots| && j < |s.slots|
    requires i != Main(key, |s.slots|) && j != Main(key, |s.slots|)
    ensures s.Displaced(key, f, p).PairOk(i, j)
  {
    var m := Main(key, |s.slots|);
    var s' := s.Displaced(key, f, p);
    DisplacedView(s, key, f, p, i);
    DisplacedView(s, key, f, p, j);
    assert s.PairOk(Stood(m, f, i), Stood(m, f, j));
    if s'.slots[i].next != 0 {
      DisplacedView(s, key, f, p, s'.Target(i));
    }
  }

  lemma DisplacedKeys(s: State, key: int, f: nat, p: nat)
    requires CanDisplace(s, key, f, p)
    ensures s.Displaced(key, f, p).KeysOk()
  {
    assert s.LinkOk(p);
    var s' := s.Displaced(key, f, p);
    var m := Main(key, |s.slots|);
    assert forall i | 0 <= i < |s.slots| && i != f && i != m ::
        s'.slots[i].key == s.slots[i].key && s'.slots[i].value == s.slots[i].value;
  }

  lemma DisplacedMain(s: State, key: int, f: nat, p: nat, i: nat)
    requires CanDisplace(s, key, f, p) && s.Displaced(key, f, p).Live(i)
    ensures s.Displaced(key, f, p).MainOk(i)
  {
    var m := Main(key, |s.slots|);
    assert s.MainOk(m);
    if i != m && i != f {
      assert s.MainOk(i);
    }
  }

  lemma DisplacedOk(s: State, key: int, f: nat, p: nat)
    requires CanDisplace(s, key, f, p)
    ensures s.Displaced(key, f, p).Ok()
    ensures Contents(s.Displaced(key, f, p)) == Contents(s)[key := 0]
  {
    var s' := s.Displaced(key, f, p);
    DisplacedLinks(s, key, f, p);
    forall i, j | 0 <= i < |s.slots| && 0 <= j < |s.slots| ensures s'.PairOk(i, j) {
      if i == Main(key, |s.slots|) {
        DisplacedPairNew(s, key, f, p, j);
      } else if j == Main(key, |s.slots|) {
        DisplacedPairNew(s, key, f, p, i);
      } else {
        DisplacedPairOld(s, key, f, p, i, j);
      }
    }
    DisplacedKeys(s, key, f, p);
    ContentsExtended(s, s', key);
    forall i: nat | s'.Live(i) ensures s'.MainOk(i) {
      DisplacedMain(s, key, f, p, i);
    }
  }

  // A collision is resolved by moving the occupant, whose predecessor is p, or by chaining.
  ghost predicate CanCollide(s: State, key: int, f: nat, p: Option<nat>) {
    if p == None then CanChain(s, key, f) else CanDisplace(s, key, f, p.value)
  }

  ghost function Collided(s: State, key: int, f: nat, p: Option<nat>): State
    requires CanCollide(s, key, f, p)
  {
    if p == None then s.Chained(key, f) else s.Displaced(key, f, p.value)
  }

  lemma CollidedFull(s: State, key: int, f: nat, p: Option<nat>)
    requires CanCollide(s, key, f, p) && s.FullFrom(f + 1)
    ensures Collided(s, key, f, p).FullFrom(f)
  {
    if p != None {
      assert s.LinkOk(p.value);
    }
  }

  // The new key is in its slot with an empty payload, and nothing else is lost.
  ghost predicate Added(s: State, s': State, key: int, slot: nat)
    requires s.KeysOk() && s'.KeysOk() && |s.slots| > 0 && |s'.slots| > 0
  {
    && Contents(s') == Contents(s)[key := 0]
    && key in s'.home && s'.home[key] == slot
    && s'.hasZero == s.hasZero && s'.slots[0].value == s.slots[0].value
    && (s.FullFrom(s.lastfree) ==> s'.FullFrom(s'.lastfree))
  }

  lemma PlacedAdds(s: State, key: int)
    requires CanPlace(s, key)
    ensures s.Placed(key).Ok() && Added(s, s.Placed(key), key, Main(key, |s.slots|))
  {
    PlacedOk(s, key);
  }

  // `was` is the table before the scan that found f.
  lemma CollidedAdds(was: State, s: State, key: int, f: nat, p: Option<nat>)
    requires was.Shape() && was.KeysOk() && CanCollide(s, key, f, p)
    requires s == was.(lastfree := f) && f < was.lastfree
    requires forall i | f < i < was.lastfree :: Used(s.slots[i])
    ensures Collided(s, key, f, p).Ok()
    ensures Added(was, Collided(s, key, f, p), key, if p == None then f else Main(key, |s.slots|))
  {
    if p == None {
      ChainedOk(s, key, f);
    } else {
      DisplacedOk(s, key, f, p.value);
      assert s.LinkOk(p.value);
    }
    if was.FullFrom(was.lastfree) {
      CollidedFull(s, key, f, p);
    }
  }

  // ---- Clearing an entry in place ----

  ghost function Cleared(s: State, i: nat): State
    requires i < |s.slots|
  {
    s.(slots := s.slots[i := s.slots[i].(key := 0, value := 0)], home := s.home - {s.slots[i].key})
  }

  lemma ClearedKeys(s: State, i: nat)
    requires s.KeysOk() && s.Live(i)
    ensures Cleared(s, i).KeysOk()
    ensures Contents(Cleared(s, i)) == Contents(s) - {s.slots[i].key}
  {
    var s' := Cleared(s, i);
    var less := Contents(s) - {s.slots[i].key};
    assert forall k | k in s'.home :: s.home[k] != i && s'.slots[s'.home[k]] == s.slots[s.home[k]];
    assert Contents(s').Keys == less.Keys;
    assert forall k | k in less :: Contents(s')[k] == less[k];
  }

  lemma ClearedOk(s: State, i: nat)
    requires s.Ok() && s.Live(i)
    ensures Cleared(s, i).Ok()
    ensures Contents(Cleared(s, i)) == Contents(s) - {s.slots[i].key}
  {
    var s' := Cleared(s, i);
    SameChains(s, s');
    ClearedKeys(s, i);
    forall j: nat | s'.Live(j) ensures s'.MainOk(j) {
      assert s.Live(j) && s.MainOk(j);
    }
  }

  // ---- Walking up a chain ----

  // The walk for a key is still at or below the key's slot.
  ghost predicate OnTheWay(s: State, entry: nat, key: int)
    requires s.Ok() && entry < |s.slots|
  {
    key in s.home ==> entry == s.home[key] || s.Below(entry, s.home[key])
  }

  lemma WalkStarts(s: State, key: int)
    requires s.Ok() && key != 0 && |s.slots| > 0
    ensures OnTheWay(s, Main(key, |s.slots|), key)
  {
    if key in s.home {
      assert s.Live(s.home[key]) && s.MainOk(s.home[key]);
    }
  }

  // The slots that a walk that has come to `entry` can still visit.
  ghost function Above(s: State, entry: nat): set<nat>
    requires s.Shape() && entry < |s.slots|
  {
    set i: nat | i < |s.slots| && s.rank[i] > s.rank[entry]
  }

  lemma WalkEnds(s: State, entry: nat, up: nat)
    requires s.Shape() && entry < |s.slots| && up < |s.slots| && s.Below(entry, up)
    ensures Above(s, up) < Above(s, entry)
  {
    assert up in Above(s, entry) && up !in Above(s, up);
  }

  lemma WalkStep(s: State, entry: nat, key: int)
    requires s.Ok() && entry < |s.slots| && s.slots[entry].key != key && OnTheWay(s, entry, key)
    ensures s.slots[entry].next == 0 ==> key !in s.home
    ensures s.slots[entry].next != 0 ==>
              0 < s.Target(entry) < |s.slots| && s.Below(entry, s.Target(entry)) && OnTheWay(s, s.Target(entry), key)
  {
    assert s.LinkOk(entry);
    if key in s.home {
      assert s.PairOk(entry, s.home[key]);
      if s.slots[entry].next != 0 {
        assert s.PairOk(s.Target(entry), s.home[key]);
      }
    }
  }

  // A slot below lastfree that has no successor is in no chain but its own.
  lemma LowSlotIsAlone(s: State, f: nat)
    requires s.ChainsOk() && f < s.lastfree && s.slots[f].next == 0
    ensures s.Alone(f)
  {
    forall j | 0 <= j < |s.slots| && s.chain[j] == s.chain[f] ensures j == f {
      assert s.PairOk(f, j);
    }
  }

  lemma SameMains(s: State, s': State)
    requires s.Ok() && s' == s.(lastfree := s'.lastfree) && s'.lastfree <= s.lastfree
    ensures s'.KeysOk() && s'.Shape() && forall i: nat | s'.Live(i) :: s'.MainOk(i)
  {
    assert s'.Shape();
    forall i: nat | s'.Live(i) ensures s'.MainOk(i) {
      assert s.Live(i) && s.MainOk(i);
    }
  }

  // A slot below m in its chain whose `next` is not m leads to another slot below m.
  lemma PassOn(s: State, p: nat, m: nat)
    requires s.Ok() && p < |s.slots| && m < |s.slots| && s.Below(p, m)
    requires s.slots[p].next != 0 && s.Target(p) != m
    ensures 0 < s.Target(p) < |s.slots|
    ensures s.Below(p, s.Target(p)) && s.Below(s.Target(p), m)
    ensures var q := s.Target(p);
            s.slots[q].next != 0 && 0 < s.Target(q) < |s.slots|
  {
    assert s.PairOk(p, m) && s.LinkOk(p);
    assert s.PairOk(s.Target(p), m);
  }

  // The payload that a resize leaves in slot 0: every empty slot is inserted again as key 0.
  function LastEmpty(slots: seq<Slot>): int {
    if slots == [] then 0
    else
      var last := slots[|slots| - 1];
      if last.key == 0 then last.value else LastEmpty(slots[..|slots| - 1])
  }

  // ---- Writing a payload ----

  ghost function Written(s: State, i: nat, v: int): State
    requires i < |s.slots|
  {
    s.(slots := s.slots[i := s.slots[i].(value := v)])
  }

  lemma WrittenOk(s: State, i: nat, v: int)
    requires s.Ok() && (s.Live(i) || (i == 0 && |s.slots| > 0))
    ensures Written(s, i, v).Ok()
  {
    var s' := Written(s, i, v);
    SameChains(s, s');
    forall j: nat | s'.Live(j) ensures s'.MainOk(j) {
      assert s.Live(j) && s.MainOk(j);
    }
  }

  lemma WrittenContents(s: State, i: nat, v: int)
    requires s.Ok() && (s.Live(i) || (i == 0 && |s.slots| > 0)) && Written(s, i, v).KeysOk()
    ensures Contents(Written(s, i, v)) == if i == 0 then Contents(s) else Contents(s)[s.slots[i].key := v]
  {
    var s' := Written(s, i, v);
    assert forall k | k in s.home :: k == s.slots[i].key <==> s.home[k] == i;
    assert i != 0 ==> s.slots[i].key in s.home;
  }

  lemma FilledIn(s: State, t: State, key: int, slot: nat, v: int)
    requires s.KeysOk() && s.FullFrom(s.lastfree) && |s.slots| > 0 && key != 0
    requires t.Ok() && |t.slots| > 0 && Added(s, t, key, slot)
    ensures t.Live(slot) && Written(t, slot, v).Ok()
    ensures Contents(Written(t, slot, v)) == Contents(s)[key := v]
  {
    assert t.Live(slot);
    WrittenOk(t, slot, v);
    WrittenContents(t, slot, v);
  }

  lemma FilledFull(s: State, t: State, key: int, slot: nat, v: int)
    requires s.KeysOk() && s.FullFrom(s.lastfree) && |s.slots| > 0 && key != 0
    requires t.KeysOk() && |t.slots| > 0 && Added(s, t, key, slot)
    ensures Written(t, slot, v).FullFrom(t.lastfree)
    ensures Written(t, slot, v).slots[0].value == s.slots[0].value
  {
  }

  // The entry of key 0: its payload, if the key was ever set.
  ghost function ZeroEntry(s: State): Option<int>
    requires s.KeysOk()
  {
    if s.hasZero then Some(s.slots[0].value) else None
  }

  ghost function ZeroAfterResize(s: State): Option<int> {
    if s.slots == [] then None else Some(LastEmpty(s.slots))
  }

  // ---- Copying into a larger table ----

  // What the first i slots of s hold.
  ghost function Part(s: State, i: nat): (m: map<int, int>)
    requires s.KeysOk()
  {
    map k | k in s.home && s.home[k] < i :: s.slots[s.home[k]].value
  }

  ghost predicate AllLive(s: State, i: nat) { forall j | 0 < j < i :: s.Live(j) }

  lemma PartStep(s: State, i: nat)
    requires s.KeysOk() && i < |s.slots|
    ensures Part(s, i + 1) == if s.Live(i) then Part(s, i)[s.slots[i].key := s.slots[i].value] else Part(s, i)
  {
    assert forall k | k in s.home && s.home[k] == i :: s.Live(i) && k == s.slots[i].key;
  }

  lemma {:induction false} PartIsSmall(s: State, i: nat)
    requires s.KeysOk() && i <= |s.slots|
    ensures |Part(s, i)| <= if i == 0 then 0 else i - 1
  {
    if i == 0 {
      assert Part(s, i) == map[];
    } else {
      PartIsSmall(s, i - 1);
      PartStep(s, i - 1);
      var before := Part(s, i - 1);
      if i > 1 && s.Live(i - 1) {
        OneMore(before, s.slots[i - 1].key, s.slots[i - 1].value);
      }
    }
  }

  // A table with a key in every slot but slot 0 holds as many keys.
  lemma {:induction false} PartIsFull(s: State, i: nat)
    requires s.KeysOk() && 0 < i <= |s.slots| && AllLive(s, i)
    ensures |Part(s, i)| == i - 1
  {
    PartStep(s, i - 1);
    if i == 1 {
      assert Part(s, 1) == map[];
    } else {
      PartIsFull(s, i - 1);
      OneMore(Part(s, i - 1), s.slots[i - 1].key, s.slots[i - 1].value);
    }
  }

  lemma OneMore(m: map<int, int>, k: int, v: int)
    requires k !in m
    ensures |m[k := v]| == |m| + 1
  {
    assert m[k := v].Keys == m.Keys + {k};
    assert |m[k := v]| == |m[k := v].Keys| && |m| == |m.Keys|;
  }

  lemma WholePart(s: State)
    requires s.KeysOk()
    ensures Part(s, |s.slots|) == Contents(s) && |Part(s, |s.slots|)| == |s.home|
  {
    assert forall k | k in s.home :: s.home[k] < |s.slots|;
    assert Part(s, |s.slots|).Keys == s.home.Keys;
    assert |Part(s, |s.slots|)| == |Part(s, |s.slots|).Keys| && |s.home| == |s.home.Keys|;
  }

  lemma FullTableIsFull(s: State)
    requires s.KeysOk() && |s.slots| > 0 && AllLive(s, |s.slots|)
    ensures |s.home| == |s.slots| - 1
  {
    PartIsFull(s, |s.slots|);
    WholePart(s);
  }

  lemma LastEmptyStep(slots: seq<Slot>, i: nat)
    requires i < |slots|
    ensures LastEmpty(slots[..i + 1]) == if slots[i].key == 0 then slots[i].value else LastEmpty(slots[..i])
  {
    assert slots[..i + 1][..i] == slots[..i];
  }

  // t is a new table that holds what is in the first i slots of s.
  ghost predicate Copied(s: State, t: State, i: nat)
    requires s.KeysOk() && t.KeysOk() && i <= |s.slots|
  {
    && Contents(t) == Part(s, i)
    && |t.slots| > 0 && t.slots[0].value == LastEmpty(s.slots[..i])
    && t.hasZero == (s.hasZero || i > 0)
  }

  ghost predicate Copying(s: State, t: State, i: nat) {
    s.Ok() && i <= |s.slots| && t.Ok() && t.FullFrom(t.lastfree) && Copied(s, t, i)
  }

  lemma StillRoomy(s: State, t: State, i: nat)
    requires i < |s.slots| <= |t.slots| && Copying(s, t, i)
    ensures t.Roomy()
  {
    PartIsSmall(s, i);
    assert |t.home| == |t.home.Keys| == |Contents(t)|;
  }

  lemma AllCopied(s: State, t: State)
    requires s.KeysOk() && t.KeysOk() && Copied(s, t, |s.slots|)
    ensures Contents(t) == Contents(s)
    ensures t.hasZero ==> ZeroEntry(t) == Some(LastEmpty(s.slots))
  {
    assert s.slots[..|s.slots|] == s.slots;
    WholePart(s);
  }

  lemma ResizeMakesRoom(s: State, t: State)
    requires s.Ok() && t.Ok() && Contents(t) == Contents(s) && t.FullFrom(t.lastfree)
    requires |s.slots| < |t.slots| && MIN_SIZE <= |t.slots|
    ensures t.Roomy()
  {
    PartIsSmall(s, |s.slots|);
    WholePart(s);
    assert |t.home| == |t.home.Keys| == |s.home.Keys|;
  }

  lemma {:induction false} LastEmptyIsNull(s: State, i: nat)
    requires s.KeysOk() && 0 < i <= |s.slots|
    ensures LastEmpty(s.slots[..i]) == if AllLive(s, i) then s.slots[0].value else 0
  {
    LastEmptyStep(s.slots, i - 1);
    if i > 1 {
      LastEmptyIsNull(s, i - 1);
      assert AllLive(s, i) <==> AllLive(s, i - 1) && s.Live(i - 1);
    }
  }

  // Key 0 is the exception to "a resize changes nothing". It keeps its payload if and only if the
  // payload is NULL or every other slot is in use; otherwise an empty slot overwrites it.
  lemma ZeroSurvivesResize(s: State)
    requires s.Ok() && s.hasZero
    ensures ZeroAfterResize(s) == ZeroEntry(s) <==>
            s.slots[0].value == 0 || AllLive(s, |s.slots|)
  {
    LastEmptyIsNull(s, |s.slots|);
    assert s.slots[..|s.slots|] == s.slots;
  }

  // A table without entries.
  ghost function Fresh(size: nat): State {
    State(seq(size, _ => Slot(0, 0, 0)), size, false, seq(size, i => i), seq(size, _ => 0.0), map[])
  }

  lemma FreshOk(size: nat)
    requires size == 0 || MIN_SIZE <= size
    ensures Fresh(size).Ok()
  {
    var s := Fresh(size);
    assert forall i, j | 0 <= i < size && 0 <= j < size :: s.PairOk(i, j);
  }

  // Key 0 is added.
  ghost function Zeroed(s: State): State
    requires |s.slots| > 0
  {
    Written(s, 0, 0).(hasZero := true)
  }

  lemma ZeroedOk(s: State)
    requires s.Ok() && |s.slots| > 0
    ensures Zeroed(s).Ok()
  {
    WrittenOk(s, 0, 0);
    SameChains(s, Zeroed(s));
    forall j: nat | Zeroed(s).Live(j) ensures Zeroed(s).MainOk(j) {
      assert Written(s, 0, 0).MainOk(j);
    }
  }

  // One step of a run: the first slots are allocated; a key is added, after the scan has come down to a
  // free slot if it needs one; key 0 is added; a payload is filled in; or an entry is cleared in place.
  ghost predicate TableStep(s: State, s': State) {
    || (s == Fresh(0) && s' == Fresh(MIN_SIZE))
    || (s.Ok() && |s.slots| > 0 && s' == Zeroed(s))
    || (exists i: nat, v :: s.Ok() && IsEntry(s, i) && i < |s.slots| && s' == Written(s, i, v))
    || (exists key :: CanPlace(s, key) && s' == s.Placed(key))
    || (exists key, f: nat, p :: CanCollide(ScannedTo(s, f), key, f, p) && s' == Collided(ScannedTo(s, f), key, f, p))
    || (exists i: nat :: s.Ok() && s.Live(i) && s' == Cleared(s, i))
  }

  ghost function ScannedTo(s: State, f: nat): State { s.(lastfree := f) }

  // A new key has to wait for a resize: its main slot is taken and the scan will find no free slot.
  ghost predicate NeedsResize(s: State, key: int) {
    && s.Ok() && |s.slots| > 0 && key != 0 && key !in s.home && s.Live(Main(key, |s.slots|))
    && forall i | 0 < i < s.lastfree :: Used(s.slots[i])
  }

  ghost predicate StepAt(run: seq<State>, i: nat)
    requires i + 1 < |run|
  {
    TableStep(run[i], run[i + 1])
  }

  ghost predicate Run(run: seq<State>) {
    |run| > 0 && run[0] == Fresh(0) && forall i | 0 <= i < |run| - 1 :: StepAt(run, i)
  }

  lemma MainOfSmall(key: nat)
    requires 0 < key < 16
    ensures Main(key, 8) == if key % 8 == 0 then 1 else key % 8
  {
    assert key * 2654435761 == 8 * (key * 331804470) + key;
  }

  // Eight slots, key 0 with payload 7, and nothing else.
  ghost predicate OnlyZero(s: State) {
    && s.Ok() && s.home == map[] && |s.slots| == 8 && s.lastfree == 8 && s.hasZero
    && s.slots[0] == Slot(0, 0, 7) && (forall i | 0 < i < 8 :: s.slots[i] == Slot(0, 0, 0)) && s.Alone(7)
  }

  lemma ZeroIsSet() returns (run: seq<State>)
    ensures Run(run) && OnlyZero(run[|run| - 1])
  {
    FreshOk(8);
    var s1 := Zeroed(Fresh(8));
    ZeroedOk(Fresh(8));
    var s2 := Written(s1, 0, 7);
    WrittenOk(s1, 0, 7);
    run := [Fresh(0)];
    RunGrows(run, Fresh(8));
    run := run + [Fresh(8)];
    RunGrows(run, s1);
    run := run + [s1];
    assert IsEntry(s1, 0);
    RunGrows(run, s2);
    run := run + [s2];
  }

  // Slot 1 holds key 1, chained to key 9 in slot 7; slots up to k hold their own numbers.
  ghost predicate FilledTo(s: State, k: nat) {
    && s.Ok() && |s.slots| == 8 && s.lastfree == 7 && s.hasZero
    && s.slots[0] == Slot(0, 0, 7) && s.slots[1] == Slot(6, 1, 0) && s.slots[7] == Slot(0, 9, 0)
    && (forall i | 2 <= i < 7 :: s.slots[i] == Slot(0, if i < k then i else 0, 0))
    && (forall x | x in s.home :: x == 9 || 1 <= x < k)
  }

  lemma FirstKey(s0: State) returns (s1: State)
    requires OnlyZero(s0)
    ensures TableStep(s0, s1) && ScannedTo(s1, 7).Free(7) && ScannedTo(s1, 7).Ok()
    ensures s1.slots == s0.slots[1 := Slot(0, 1, 0)] && s1.home == map[1 := 1] && s1.hasZero
  {
    MainOfSmall(1);
    assert CanPlace(s0, 1);
    s1 := s0.Placed(1);
    PlacedOk(s0, 1);
    SameChains(s1, ScannedTo(s1, 7));
    SameMains(s1, ScannedTo(s1, 7));
  }

  lemma SecondKey(s1: State) returns (s2: State)
    requires ScannedTo(s1, 7).Free(7) && ScannedTo(s1, 7).Ok() && |s1.slots| == 8 && s1.hasZero
    requires s1.slots[0] == Slot(0, 0, 7) && s1.slots[1] == Slot(0, 1, 0) && s1.home == map[1 := 1]
    requires forall i | 2 <= i < 8 :: s1.slots[i] == Slot(0, 0, 0)
    ensures TableStep(s1, s2) && FilledTo(s2, 2)
  {
    MainOfSmall(1);
    MainOfSmall(9);
    var t := ScannedTo(s1, 7);
    assert CanChain(t, 9, 7) && CanCollide(t, 9, 7, None);
    ChainedOk(t, 9, 7);
    s2 := Collided(t, 9, 7, None);
  }

  lemma ChainedWitness() returns (run: seq<State>)
    ensures Run(run) && FilledTo(run[|run| - 1], 2)
  {
    run := ZeroIsSet();
    var s1 := FirstKey(run[|run| - 1]);
    var s2 := SecondKey(s1);
    RunGrows(run, s1);
    run := run + [s1];
    RunGrows(run, s2);
    run := run + [s2];
  }

  lemma RunGrows(run: seq<State>, s: State)
    requires Run(run) && TableStep(run[|run| - 1], s)
    ensures Run(run + [s])
  {
    var longer := run + [s];
    forall i | 0 <= i < |longer| - 1 ensures StepAt(longer, i) {
      assert i < |run| - 1 ==> StepAt(run, i);
    }
  }

  lemma CanPlaceNext(s: State, k: nat)
    requires FilledTo(s, k) && 2 <= k < 7
    ensures CanPlace(s, k) && Main(k, 8) == k
  {
    MainOfSmall(k);
  }

  lemma FilledOneMore(s: State, k: nat)
    requires FilledTo(s, k) && 2 <= k < 7
    ensures TableStep(s, s.Placed(k)) && FilledTo(s.Placed(k), k + 1)
  {
    CanPlaceNext(s, k);
    PlacedOk(s, k);
  }

  // A run that ends in such a loss. Key 0 is given the payload 7, the keys 1, 9, 2, 3, 4, 5 and 6 are added,
  // key 1 is cleared in place, and key 10 finds no free slot: the scan passes the cleared slot, whose link it
  // keeps, and the resize inserts that slot over key 0.
  lemma ZeroCanBeLost() returns (run: seq<State>)
    ensures Run(run) && NeedsResize(run[|run| - 1], 10)
    ensures ZeroEntry(run[|run| - 1]) == Some(7) != ZeroAfterResize(run[|run| - 1])
  {
    run := ChainedWitness();
    for k := 2 to 7
      invariant Run(run) && FilledTo(run[|run| - 1], k)
    {
      var s := run[|run| - 1];
      FilledOneMore(s, k);
      RunGrows(run, s.Placed(k));
      run := run + [s.Placed(k)];
    }
    var last := ClearedWitness(run[|run| - 1]);
    RunGrows(run, last);
    run := run + [last];
  }

  lemma ClearedWitness(s: State) returns (last: State)
    requires FilledTo(s, 7)
    ensures TableStep(s, last) && NeedsResize(last, 10)
    ensures ZeroEntry(last) == Some(7) != ZeroAfterResize(last)
  {
    last := Cleared(s, 1);
    ClearedOk(s, 1);
    assert s.Live(1);
    ClearedNeedsResize(s);
    assert !last.Live(1);
    ZeroSurvivesResize(last);
  }

  lemma ClearedNeedsResize(s: State)
    requires FilledTo(s, 7) && Cleared(s, 1).Ok()
    ensures NeedsResize(Cleared(s, 1), 10)
  {
    MainOfSmall(10);
  }

  ghost predicate IsEntry(s: State, i: nat) { s.Live(i) || (i == 0 && s.hasZero) }

  // `next` is the first entry after the cursor, which is -1 at the start; None if there is none.
  ghost predicate IsNext(s: State, cursor: int, next: Option<nat>) {
    && (next.Some? ==> cursor < next.value && IsEntry(s, next.value))
    && forall i: nat | cursor < i && (next.Some? ==> i < next.value) :: !IsEntry(s, i)
  }

  class HashTable {
    const maxSize: nat // PB_MAX_HASHSIZE / entry_size
    var hash: array<Slot>
    var lastfree: nat
    var hasZero: bool

    ghost var chain: seq<nat>
    ghost var rank: seq<real>
    ghost var home: map<int, nat>

    ghost function S(): State
      reads this, hash
    {
      State(hash[..], lastfree, hasZero, chain, rank, home)
    }

    // pb_inittable (size 0), or the new table of a resize.
    constructor (size: nat, zero: bool, limit: nat)
      requires size == 0 || MIN_SIZE <= size
      requires zero ==> size > 0
      ensures fresh(hash) && hash.Length == size && maxSize == limit
      ensures S().Ok() && S().FullFrom(lastfree) && home == map[] && hasZero == zero
      ensures forall i | 0 <= i < size :: hash[i] == Slot(0, 0, 0)
    {
      maxSize := limit;
      hash := new Slot[size](_ => Slot(0, 0, 0));
      lastfree := size;
      hasZero := zero;
      chain := seq(size, i => i);
      rank := seq(size, _ => 0.0);
      home := map[];
    }

    // pb_gettable: walk up from the main slot.
    method Get(key: int) returns (slot: Option<nat>)
      requires S().Ok()
      ensures key != 0 ==> slot == if key in home then Some(home[key]) else None
      ensures key == 0 ==> slot == if hasZero then Some(0) else None
    {
      if hash.Length == 0 {
        return None;
      }
      if key == 0 {
        return if hasZero then Some(0) else None;
      }
      var entry: nat := Main(key, hash.Length);
      WalkStarts(S(), key);
      while hash[entry].key != key
        invariant entry < hash.Length && OnTheWay(S(), entry, key)
        decreases Above(S(), entry)
      {
        WalkStep(S(), entry, key);
        if hash[entry].next == 0 {
          return None;
        }
        WalkEnds(S(), entry, S().Target(entry));
        entry := entry + hash[entry].next;
      }
      assert S().Live(entry);
      return Some(entry);
    }

    // The scan for a free slot, downwards from lastfree. Slots that it passes are never looked at
    // again.
    method FindFree() returns (f: Option<nat>)
      requires S().Ok() && hash.Length > 0
      modifies `lastfree
      ensures S() == old(S()).(lastfree := lastfree) && lastfree <= old(lastfree) && S().Ok()
      ensures f.Some? ==> f.value == lastfree < old(lastfree) && S().Free(lastfree)
      ensures f == None ==> lastfree <= 1
      ensures forall i | lastfree <= i < old(lastfree) && 0 < i && f != Some(i) :: Used(S().slots[i])
    {
      while lastfree > 1
        modifies `lastfree
        invariant S() == old(S()).(lastfree := lastfree) && lastfree <= old(lastfree)
        invariant forall i | lastfree <= i < old(lastfree) && 0 < i :: Used(S().slots[i])
      {
        lastfree := lastfree - 1;
        if hash[lastfree].key == 0 && hash[lastfree].next == 0 {
          LowSlotIsAlone(old(S()), lastfree);
          SameChains(old(S()), S());
          SameMains(old(S()), S());
          return Some(lastfree);
        }
      }
      SameChains(old(S()), S());
      SameMains(old(S()), S());
      return None;
    }

    // The walk from a displaced key's own main slot to the slot before m.
    method Predecessor(m: nat) returns (p: nat)
      requires S().Ok() && S().Live(m) && S().Start(m) != m
      ensures p < hash.Length && hash[p].next != 0 && S().Target(p) == m
    {
      p := Main(hash[m].key, hash.Length);
      assert S().MainOk(m);
      assert S().PairOk(p, m);
      while p + hash[p].next != m
        invariant p < hash.Length && S().Below(p, m)
        invariant hash[p].next != 0 && 0 < S().Target(p) < hash.Length
        decreases Above(S(), p)
      {
        var next := p + hash[p].next;
        PassOn(S(), p, m);
        WalkEnds(S(), p, next);
        p := next;
      }
    }

    method Place(key: int)
      requires CanPlace(S(), key)
      modifies hash, `home
      ensures S() == old(S()).Placed(key)
    {
      var m := Main(key, hash.Length);
      hash[m] := hash[m].(key := key, value := 0);
      home := home[key := m];
      assert hash[..] == old(S()).Placed(key).slots;
    }

    // The key goes to f, linked in after m.
    static method LinkAfter(hash: array<Slot>, m: nat, f: nat, key: int)
      requires m < hash.Length && f < hash.Length && m != f && hash[f].next == 0
      modifies hash
      ensures var n := old(hash[m].next);
              hash[..] == old(hash[..])[f := Slot(if n == 0 then 0 else m - f + n, key, 0)]
                                       [m := old(hash[m]).(next := f - m)]
    {
      if hash[m].next != 0 {
        hash[f] := hash[f].(next := m - f + hash[m].next);
      }
      hash[m] := hash[m].(next := f - m);
      hash[f] := hash[f].(key := key, value := 0);
    }

    // The occupant of m moves to f, its predecessor p follows it, and the key takes m.
    static method MoveAway(hash: array<Slot>, m: nat, f: nat, p: nat, key: int)
      requires m < hash.Length && f < hash.Length && p < hash.Length && m != f && p != m && p != f
      modifies hash
      ensures var n := old(hash[m].next);
              hash[..] == old(hash[..])[p := old(hash[p]).(next := f - p)]
                                       [f := old(hash[m]).(next := if n == 0 then 0 else n + m - f)]
                                       [m := Slot(0, key, 0)]
    {
      hash[p] := hash[p].(next := f - p);
      hash[f] := hash[m];
      if hash[m].next != 0 {
        hash[f] := hash[f].(next := hash[f].next + (m - f));
        hash[m] := hash[m].(next := 0);
      }
      hash[m] := hash[m].(key := key, value := 0);
    }

    method Chain(key: int, f: nat)
      requires CanChain(S(), key, f)
      modifies hash, `home, `chain, `rank
      ensures S() == old(S()).Chained(key, f)
    {
      ghost var s' := S().Chained(key, f);
      LinkAfter(hash, Main(key, hash.Length), f, key);
      chain, rank, home := s'.chain, s'.rank, s'.home;
    }

    method Displace(key: int, f: nat, p: nat)
      requires CanDisplace(S(), key, f, p)
      modifies hash, `home, `chain, `rank
      ensures S() == old(S()).Displaced(key, f, p)
    {
      ghost var s' := S().Displaced(key, f, p);
      assert S().LinkOk(p);
      MoveAway(hash, Main(key, hash.Length), f, p, key);
      chain, rank, home := s'.chain, s'.rank, s'.home;
    }

    // Which of the two ways is taken: p is the predecessor of the slot that is vacated, if any.
    method Collide(key: int, f: nat) returns (slot: nat, ghost p: Option<nat>)
      requires S().Ok() && S().Free(f) && key != 0 && key !in home && S().Live(Main(key, hash.Length))
      modifies hash, `home, `chain, `rank
      ensures CanCollide(old(S()), key, f, p) && S() == Collided(old(S()), key, f, p)
      ensures slot == if p == None then f else Main(key, hash.Length)
    {
      var m := Main(key, hash.Length);
      assert S().MainOk(m);
      if Main(hash[m].key, hash.Length) != m {
        var before := Predecessor(m);
        Displace(key, f, before);
        return m, Some(before);
      } else {
        Chain(key, f);
        return f, None;
      }
    }

    // pbT_newkey for a key other than 0, as far as it needs no resize.
    method Insert(key: int) returns (slot: Option<nat>)
      requires S().Ok() && hash.Length > 0 && key != 0 && key !in home
      modifies this, hash
      ensures hash == old(hash) && S().Ok() && lastfree <= old(lastfree)
      ensures slot.Some? ==> Added(old(S()), S(), key, slot.value)
      ensures slot == None ==> S() == old(S()).(lastfree := lastfree)
      ensures old(S().Roomy()) ==> slot.Some?
    {
      var m := Main(key, hash.Length);
      if hash[m].key == 0 {
        PlacedAdds(S(), key);
        Place(key);
        return Some(m);
      }
      var f := FindFree();
      if f == None {
        if old(S().Roomy()) {
          FullTableIsFull(S());
        }
        return None;
      }
      ghost var was, s := old(S()), S();
      ghost var p;
      var at: nat;
      at, p := Collide(key, f.value);
      CollidedAdds(was, s, key, f.value, p);
      return Some(at);
    }

    // A caller fills in the payload of an entry.
    method Write(slot: nat, v: int)
      requires S().Ok() && (S().Live(slot) || (slot == 0 && hash.Length > 0))
      modifies hash
      ensures S() == Written(old(S()), slot, v) && S().Ok()
    {
      WrittenOk(S(), slot, v);
      hash[slot] := hash[slot].(value := v);
    }

    // A caller removes an entry in place: its key becomes 0 and its payload NULL.
    method Clear(slot: nat)
      requires S().Ok() && S().Live(slot)
      modifies hash, `home
      ensures S() == Cleared(old(S()), slot) && S().Ok()
      ensures Contents(S()) == old(Contents(S())) - {old(hash[slot].key)}
    {
      ClearedOk(S(), slot);
      home := home - {hash[slot].key};
      hash[slot] := hash[slot].(key := 0, value := 0);
    }

    // pbT_newkey for key 0.
    method InsertZero()
      requires S().Ok() && hash.Length > 0
      modifies hash, `hasZero
      ensures S() == Written(old(S()), 0, 0).(hasZero := true) && S().Ok()
      ensures Contents(S()) == old(Contents(S()))
    {
      WrittenOk(S(), 0, 0);
      WrittenContents(S(), 0, 0);
      ghost var s := Written(S(), 0, 0);
      hasZero := true;
      hash[0] := hash[0].(key := 0, value := 0);
      SameChains(s, S());
      forall j: nat | S().Live(j) ensures S().MainOk(j) {
        assert s.Live(j) && s.MainOk(j);
      }
    }

    // One turn of the loop of pb_resizetable, for a slot with a key ...
    method Add(key: int, v: int)
      requires S().Roomy() && key != 0 && key !in home
      modifies this, hash
      ensures hash == old(hash) && S().Ok() && S().FullFrom(lastfree)
      ensures Contents(S()) == old(Contents(S()))[key := v]
      ensures hasZero == old(hasZero) && hash[0].value == old(hash[0].value)
      decreases 0, 1
    {
      var slot := NewKey(key);
      FilledIn(old(S()), S(), key, slot.value, v);
      FilledFull(old(S()), S(), key, slot.value, v);
      Write(slot.value, v);
    }

    // ... and for an empty one, which is inserted as key 0.
    method AddEmpty(v: int)
      requires S().Ok() && S().FullFrom(lastfree) && hash.Length > 0
      requires hash.Length > |home| + 1
      modifies this, hash
      ensures hash == old(hash)
      ensures S().Ok() && S().FullFrom(lastfree) && Contents(S()) == old(Contents(S()))
      ensures hasZero && hash[0].value == v
      decreases 0, 1
    {
      var slot := NewKey(0);
      ghost var t := S();
      Write(0, v);
      WrittenContents(t, 0, v);
    }

    // This table holds what is in the first i slots of s.
    ghost predicate Holds(s: State, i: nat)
      reads this, hash
    {
      exists t :: t == S() && Copying(s, t, i)
    }

    method CopyOne(nt: HashTable, i: nat)
      requires nt.Holds(S(), i)
      requires nt != this && nt.hash != hash && i < hash.Length <= nt.hash.Length
      modifies nt, nt.hash
      ensures nt.hash == old(nt.hash)
      ensures nt.Holds(S(), i + 1)
      decreases 1, 0
    {
      ghost var s := S();
      LastEmptyStep(s.slots, i);
      PartStep(s, i);
      StillRoomy(s, nt.S(), i);
      if hash[i].key == 0 {
        nt.AddEmpty(hash[i].value);
      } else {
        assert s.Live(i) && hash[i].key !in Contents(nt.S());
        nt.Add(hash[i].key, hash[i].value);
      }
      assert Copying(s, nt.S(), i + 1);
    }

    // The loop of pb_resizetable: every old entry, empty or not, becomes a new key of the table nt.
    method CopyAll(nt: HashTable)
      requires nt.Holds(S(), 0)
      requires nt != this && nt.hash != hash && hash.Length <= nt.hash.Length
      modifies nt, nt.hash
      ensures nt.hash == old(nt.hash)
      ensures nt.Holds(S(), hash.Length)
      decreases 1, 1
    {
      var i := 0;
      ghost var s := S();
      while i < hash.Length
        invariant nt.hash == old(nt.hash) && S() == s
        invariant nt.Holds(s, i)
        modifies nt, nt.hash
        decreases hash.Length - i
      {
        CopyOne(nt, i);
        i := i + 1;
      }
    }

    // pb_resizetable: at least `size` slots, a power of two times MIN_SIZE, if the limit allows.
    method Resize(size: nat) returns (ok: bool)
      requires S().Ok() && hash.Length <= size
      modifies this
      ensures S().Ok() && Contents(S()) == old(Contents(S()))
      ensures size <= MIN_SIZE || size <= maxSize ==> ok
      ensures !ok ==> hash == old(hash) && S() == old(S())
      ensures ok ==> fresh(hash) && size <= hash.Length && MIN_SIZE <= hash.Length && S().FullFrom(lastfree)
      ensures ok ==> hash.Length == MIN_SIZE || hash.Length < 2 * size
      ensures ok ==> ZeroEntry(S()) == ZeroAfterResize(old(S()))
      decreases 1, 2
    {
      var newsize := MIN_SIZE;
      while newsize < maxSize && newsize < size
        invariant MIN_SIZE <= newsize && (newsize == MIN_SIZE || newsize < 2 * size)
      {
        newsize := newsize * 2;
      }
      if newsize < size {
        return false;
      }
      var nt := new HashTable(newsize, hasZero, maxSize);
      assert Contents(nt.S()) == map[] == Part(S(), 0);
      assert Copying(S(), nt.S(), 0);
      CopyAll(nt);
      AllCopied(S(), nt.S());
      Adopt(nt);
      return true;
    }

    // The old array is dropped and the new table's takes its place.
    method Adopt(nt: HashTable)
      modifies this
      ensures hash == nt.hash && S() == nt.S()
    {
      hash, lastfree, hasZero := nt.hash, nt.lastfree, nt.hasZero;
      chain, rank, home := nt.chain, nt.rank, nt.home;
    }

    // pbT_newkey. It terminates because a resize leaves room, and copying needs no resize.
    method NewKey(key: int) returns (slot: Option<nat>)
      requires S().Ok() && key !in home
      modifies this, hash
      ensures S().Ok() && (hash == old(hash) || fresh(hash))
      ensures old(S().Roomy()) ==> slot.Some? && hash == old(hash)
      ensures slot == None ==> Contents(S()) == old(Contents(S())) && ZeroEntry(S()) == old(ZeroEntry(S()))
      ensures slot == None ==> maxSize < 2 * hash.Length
      ensures slot.Some? && key != 0 ==>
                Contents(S()) == old(Contents(S()))[key := 0] && key in home && home[key] == slot.value
      ensures slot.Some? && key != 0 && hash == old(hash) ==> 0 < hash.Length && Added(old(S()), S(), key, slot.value)
      ensures slot.Some? && key != 0 && hash != old(hash) ==> ZeroEntry(S()) == ZeroAfterResize(old(S()))
      ensures key == 0 ==> slot == Some(0) && Contents(S()) == old(Contents(S())) && ZeroEntry(S()) == Some(0)
      ensures key == 0 && old(hash.Length) > 0 ==>
                hash == old(hash) && S() == Written(old(S()), 0, 0).(hasZero := true)
      decreases if S().Roomy() then 0 else 2, 0
    {
      if hash.Length == 0 {
        var ok := Resize(0);
        ResizeMakesRoom(old(S()), S());
      }
      if key == 0 {
        InsertZero();
        return Some(0);
      }
      slot := Insert(key);
      if slot == None {
        ghost var s := S();
        var ok := Resize(hash.Length * 2);
        if ok {
          ResizeMakesRoom(s, S());
          slot := NewKey(key);
        }
      }
    }

    // pb_settable: the entry of the key, with its payload if it was there.
    method Set(key: int) returns (slot: Option<nat>)
      requires S().Ok()
      modifies this, hash
      ensures S().Ok() && (hash == old(hash) || fresh(hash))
      ensures key != 0 && slot.Some? ==> key in home && home[key] == slot.value
      ensures key != 0 && slot.Some? ==>
                Contents(S()) == if key in old(home) then old(Contents(S())) else old(Contents(S()))[key := 0]
      ensures key == 0 ==> slot == Some(0) && Contents(S()) == old(Contents(S()))
      ensures key == 0 ==> ZeroEntry(S()) == if old(hasZero) then old(ZeroEntry(S())) else Some(0)
      ensures key != 0 && hash == old(hash) ==> ZeroEntry(S()) == old(ZeroEntry(S()))
      ensures slot == None ==> Contents(S()) == old(Contents(S())) && maxSize < 2 * hash.Length
    {
      slot := Get(key);
      if slot == None {
        slot := NewKey(key);
      }
    }

    // pb_nextentry: key 0 first, then the entries in slot order.
    method Next(cursor: Option<nat>) returns (next: Option<nat>)
      requires S().Ok() && (cursor.Some? ==> cursor.value < hash.Length)
      ensures IsNext(S(), if cursor.Some? then cursor.value else -1, next)
    {
      if cursor == None && hasZero {
        return Some(0);
      }
      var from := if cursor.Some? then cursor.value else 0;
      var i := from + 1;
      while i < hash.Length
        invariant from < i && forall j: nat | from < j < i :: !S().Live(j)
      {
        if hash[i].key != 0 {
          return Some(i);
        }
        i := i + 1;
      }
      return None;
    }

    // The loop that every caller of pb_nextentry runs visits each entry exactly once.
    method Visit() returns (visited: seq<nat>)
      requires S().Ok()
      ensures forall a, b | 0 <= a < b < |visited| :: visited[a] < visited[b]
      ensures forall i: nat :: i in visited <==> IsEntry(S(), i)
      ensures forall k | k in home :: home[k] in visited
    {
      visited := [];
      var entry := Next(None);
      while entry.Some?
        invariant forall a, b | 0 <= a < b < |visited| :: visited[a] < visited[b]
        invariant forall i | i in visited :: IsEntry(S(), i)
        invariant IsNext(S(), if visited == [] then -1 else visited[|visited| - 1], entry)
        invariant forall i: nat | IsEntry(S(), i) && visited != [] && i <= visited[|visited| - 1] :: i in visited
        decreases entry.Some?, if entry.Some? then hash.Length - entry.value else 0
      {
        visited := visited + [entry.value];
        entry := Next(entry);
      }
      assert forall k | k in home :: S().Live(home[k]) && IsEntry(S(), home[k]);
    }
  }
}
