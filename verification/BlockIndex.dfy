/** The implicit producer's storage: each thread that enqueues without a token has one of these, and
    so each sender of an actor's mailbox.

    Blocks are found through a circular array of pointers to (base, block) entries. The producer
    takes the entry after its newest one over as soon as the block of that entry has been given
    back; consumers give a block back, by whichever of them moves out its last element, while the
    producer and other consumers go on. An array that is full is copied into one of twice the size,
    but the entries themselves are shared between old and new arrays. Every store that another
    thread can see is a step of its own.
 */
module BlockIndex {
  import opened Common
  import opened Modular
  import opened Blocks

  const INVALID_BLOCK_BASE: int := 1

  datatype Entry = Entry(key: int, value: Option<nat>)

  // `done` is elementsCompletelyDequeued.
  datatype Block<T> = Block(elements: seq<Option<T>>, done: nat)

  predicate WholeBlock<T>(b: Block<T>) { |b.elements| == 32 }

  // Where the producer is: in no call or in the middle of a block; or an entry has the new base; or the
  // tail points to it, too; or the tail has been taken back, because there was no block.
  datatype Stage = Idle | Keyed | Opened | Rewinding

  // What the producer object holds; `stage` and `releasing` (the numbers of blocks whose last element is
  // out and whose entry is about to be cleared) are the threads' program counters. The rest is for the
  // specification only: what was ever enqueued, the indices moved out, the block of each number in use,
  // the number of the newest entry, how many numbered entries lie behind it, and where number 0 would be.
  datatype State<T> = State(
    tailIndex: nat, headIndex: nat, tailBlock: Option<nat>, blocks: map<nat, Block<T>>,
    entries: seq<Entry>, indices: seq<seq<nat>>, tails: seq<nat>, stage: Stage, releasing: set<int>,
    items: seq<T>, finished: set<nat>, owner: map<int, nat>, last: int, filled: nat, start: int)
  {
    ghost function Current(): seq<nat>
      requires |indices| > 0
    {
      indices[|indices| - 1]
    }

    ghost predicate ArraysOk() {
      && 0 < |indices| == |tails| && -1 <= last
      && (forall h | 0 <= h < |indices| :: 2 <= |indices[h]| && tails[h] < |indices[h]|)
      && (forall h, k | 0 <= h < |indices| && 0 <= k < |indices[h]| :: indices[h][k] < |entries|)
      && (forall j, k | 0 <= j < k < |Current()| :: Current()[j] != Current()[k])
      && tails[|tails| - 1] == Wrap(start + last, |Current()|)
    }

    // The entry for the block numbered n; numbers that differ by the size of the array share it.
    ghost function EntryOf(n: int): nat
      requires ArraysOk()
    {
      Current()[Wrap(start + n, |Current()|)]
    }

    ghost function Key(n: int): int
      requires ArraysOk()
    {
      entries[EntryOf(n)].key
    }

    ghost function Value(n: int): Option<nat>
      requires ArraysOk()
    {
      entries[EntryOf(n)].value
    }

    // The next entry has been given the next base, but is not the newest one, or no longer.
    ghost predicate Reopened()
      requires ArraysOk()
    {
      stage != Opened && Key(last + 1) == 32 * (last + 1) && (stage == Idle ==> Value(last + 1) == None)
    }

    // Going back from the newest entry the bases decrease by one block; then come unused entries.
    ghost predicate SlotsOk()
      requires ArraysOk()
    {
      && filled <= |Current()|
      && (forall n | last - filled < n <= last :: Key(n) == 32 * n)
      && (forall n | last + 1 - |Current()| < n <= last - filled :: Key(n) == INVALID_BLOCK_BASE)
      && (filled < |Current()| ==> Key(last + 1) == INVALID_BLOCK_BASE || Reopened())
      && (stage == Keyed || stage == Rewinding ==> filled < |Current()| && Reopened())
      && (stage == Opened ==> 0 < filled)
    }

    ghost function DoneIn(n: int): set<nat> { set i | i in finished && BlockNo(i) == n }

    ghost predicate InUse(n: int) { n in owner && owner[n] in blocks && WholeBlock(blocks[owner[n]]) }

    // A block in use is in its entry, and its counter says how many of its elements are out.
    ghost predicate OwnedOk(n: int)
      requires ArraysOk() && n in owner
    {
      && last - filled < n <= last && Value(n) == Some(owner[n])
      && InUse(n) && blocks[owner[n]].done == |DoneIn(n)|
      && (n in releasing <==> blocks[owner[n]].done == 32)
    }

    ghost predicate OwnersOk()
      requires ArraysOk()
    {
      && (forall n | n in owner :: OwnedOk(n))
      && (forall n, m | n in owner && m in owner && n != m :: owner[n] != owner[m])
      && (forall b | b in blocks :: exists n :: n in owner && owner[n] == b)
      && (forall n | n in releasing :: n in owner)
      && (stage == Opened ==> last !in owner)
    }

    // An element that is in the queue, or claimed but not yet moved out.
    ghost predicate Pending(i: nat) { i < tailIndex && i !in finished }

    ghost predicate Holds(i: nat) {
      && InUse(BlockNo(i)) && i < |items| && blocks[owner[BlockNo(i)]].elements[Offset(i)] == Some(items[i])
    }

    ghost predicate HasRoom() { stage == Idle && tailIndex < 32 * last + 32 }

    // Blocks that were given back were full.
    ghost predicate GoneOk(n: int) { n in owner || 32 * n + 32 <= tailIndex || (n == last && stage == Opened) }

    ghost predicate ItemsOk() {
      && headIndex <= tailIndex == |items|
      && (forall i | i in finished :: i < headIndex)
      && (forall i: nat | Pending(i) :: Holds(i))
      && (forall n | 0 <= n <= last :: GoneOk(n))
    }

    ghost predicate TailOk() {
      && 32 * last <= tailIndex <= 32 * last + 32
      && (stage == Opened ==> tailIndex == 32 * last)
      && (stage == Keyed || stage == Rewinding ==> tailIndex == 32 * last + 32)
      && (HasRoom() ==> last in owner && tailBlock == Some(owner[last]))
    }

    ghost predicate Inv() {
      ArraysOk() && SlotsOk() && OwnersOk() && ItemsOk() && TailOk()
    }

    // The invariant as a single fact.
    ghost predicate Ok() {
      exists s :: s == this && s.Inv()
    }

    // A consumer that holds index array h and the tail f finds the entry of block n `back` slots before f.
    ghost predicate Tracks(h: nat, f: nat, n: int, back: nat) {
      && ArraysOk() && n in owner && n + back <= last + 1
      && h < |indices| && f < |indices[h]|
      && indices[h][f] == EntryOf(n + back) && Key(n + back) == 32 * (n + back)
      && indices[h][Wrap(f - back, |indices[h]|)] == EntryOf(n)
    }

    // The tail that array h publishes now can be used to find block n.
    ghost predicate Reaches(h: nat, n: int) {
      h < |tails| && exists back: nat :: Tracks(h, tails[h], n, back)
    }

    // ---- The steps ----

    // The next entry can be taken over.
    ghost predicate NextFree()
      requires ArraysOk()
    {
      Key(last + 1) == INVALID_BLOCK_BASE || Value(last + 1) == None
    }

    // Between two enqueues: a fresh tail block never waits empty.
    ghost predicate IsReady() { Ok() && stage == Idle && (tailIndex % 32 == 0 ==> tailIndex == 32 * last + 32) }

    // At the end of a block, before the next.
    ghost predicate AtEnd() { Ok() && stage == Idle && tailIndex == 32 * last + 32 }

    ghost function KeyStored(): State<T>
      requires ArraysOk()
    {
      var e := EntryOf(last + 1);
      this.(entries := entries[e := entries[e].(key := tailIndex)], stage := Keyed,
            filled := if filled == |Current()| then filled - 1 else filled)
    }

    ghost function TailStored(): State<T>
      requires ArraysOk()
    {
      var c := |tails| - 1;
      this.(tails := tails[c := Wrap(tails[c] + 1, |Current()|)], stage := Opened, last := last + 1,
            filled := filled + 1)
    }

    // A block that is not in use here was obtained; it goes into the newest entry.
    ghost predicate CanStore(b: nat, block: Block<T>) { Ok() && stage == Opened && b !in blocks && WholeBlock(block) }

    ghost function ValueStored(b: nat, block: Block<T>): State<T>
      requires ArraysOk()
    {
      var e := EntryOf(last);
      this.(entries := entries[e := entries[e].(value := Some(b))], blocks := blocks[b := block.(done := 0)],
            tailBlock := Some(b), stage := Idle, owner := owner[last := b])
    }

    // There was none: the tail is taken back ...
    ghost function Rewound(): State<T>
      requires ArraysOk() && 0 < filled
    {
      var c := |tails| - 1;
      this.(tails := tails[c := Wrap(tails[c] as int - 1, |Current()|)], stage := Rewinding, last := last - 1,
            filled := filled - 1)
    }

    // ... and the entry cleared.
    ghost function NullStored(): State<T>
      requires ArraysOk()
    {
      var e := EntryOf(last + 1);
      this.(entries := entries[e := entries[e].(value := None)], stage := Idle)
    }

    // An array of twice the size: the old pointers, oldest first, and new entries. `junk` is what the
    // values of the new entries happen to be.
    ghost predicate IsLarger(junk: seq<Option<nat>>, index: seq<nat>)
      requires ArraysOk()
    {
      && |junk| == |Current()| && |index| == 2 * |Current()|
      && (forall k | 0 <= k < |Current()| :: index[k] == Current()[Wrap(tails[|tails| - 1] + 1 + k, |Current()|)])
      && (forall k | |Current()| <= k < |index| :: index[k] == |entries| + (k - |Current()|))
    }

    ghost predicate CanGrow(junk: seq<Option<nat>>, index: seq<nat>) {
      AtEnd() && !NextFree() && IsLarger(junk, index)
    }

    ghost function Grown(junk: seq<Option<nat>>, index: seq<nat>): State<T>
      requires ArraysOk()
    {
      this.(entries := entries + Unused(junk), indices := indices + [index], tails := tails + [|Current()| - 1],
            start := |Current()| - 1 - last)
    }

    ghost predicate CanAppend() { Ok() && HasRoom() }

    ghost function Appended(x: T): State<T>
      requires InUse(last)
    {
      var b := blocks[owner[last]];
      this.(blocks := blocks[owner[last] := b.(elements := b.elements[Offset(tailIndex) := Some(x)])],
            tailIndex := tailIndex + 1, items := items + [x])
    }

    // The claimed element is moved out and counted; the thread that counts the last one will give the
    // block back.
    ghost predicate CanConsume(i: nat) { Ok() && Pending(i) && i < headIndex }

    ghost function Consumed(i: nat): State<T>
      requires InUse(BlockNo(i))
    {
      var n := BlockNo(i);
      var b := blocks[owner[n]];
      this.(blocks := blocks[owner[n] := b.(elements := b.elements[Offset(i) := None], done := b.done + 1)],
            releasing := if b.done + 1 == 32 then releasing + {n} else releasing,
            finished := finished + {i})
    }

    // The thread that counted the last element of the block numbered n clears its entry and gives it back.
    ghost predicate CanRelease(n: int) { Ok() && n in releasing }

    ghost function Released(n: int): State<T>
      requires ArraysOk() && n in owner
    {
      var e := EntryOf(n);
      this.(entries := entries[e := entries[e].(value := None)], blocks := blocks - {owner[n]},
            releasing := releasing - {n}, owner := owner - {n})
    }
  }

  function Unused(junk: seq<Option<nat>>): (es: seq<Entry>)
    ensures |es| == |junk| && forall k | 0 <= k < |es| :: es[k] == Entry(INVALID_BLOCK_BASE, junk[k])
  {
    seq(|junk|, k requires 0 <= k < |junk| => Entry(INVALID_BLOCK_BASE, junk[k]))
  }

  // What every step leaves to the consumers that are under way.
  ghost predicate Keeps<T>(s: State<T>, s': State<T>) {
    && s.items <= s'.items && s.finished <= s'.finished
    && s.headIndex <= s'.headIndex && s.tailIndex <= s'.tailIndex
    && |s.indices| <= |s'.indices| && (forall h | 0 <= h < |s.indices| :: s'.indices[h] == s.indices[h])
    && (forall n | n in s.owner && n in s'.owner :: s'.owner[n] == s.owner[n])
    && (forall n | n in s.owner && n !in s'.owner :: 32 * n + 32 <= s'.tailIndex)
    && (forall n | n in s'.owner :: n in s.owner || s.tailIndex <= 32 * n)
    && (forall h, f, n, back | s.Tracks(h, f, n, back) && n in s'.owner :: s'.Tracks(h, f, n, back))
    && (forall h, n | s.Reaches(h, n) && n in s'.owner :: s'.Reaches(h, n))
  }

  ghost predicate Kept<T>(s: State<T>, s': State<T>) {
    exists t :: t == s' && Keeps(s, t)
  }

  // ---- Entries and numbers ----

  lemma NumbersDiffer<T>(s: State<T>, n: int, m: int)
    requires s.ArraysOk() && n < m < n + |s.Current()|
    ensures s.EntryOf(n) != s.EntryOf(m)
  {
    WrapsDiffer(s.start + n, s.start + m, |s.Current()|);
  }

  lemma NumbersAgree<T>(s: State<T>, n: int)
    requires s.ArraysOk()
    ensures s.EntryOf(n - |s.Current()|) == s.EntryOf(n)
  {
    WrapMove(s.start + n - |s.Current()|, |s.Current()|, |s.Current()|);
  }

  // A consumer that loads the current tail now will find a block in use.
  lemma CurrentTailReaches<T>(s: State<T>, n: int)
    requires s.Ok() && n in s.owner
    ensures s.Reaches(|s.tails| - 1, n)
  {
    assert s.OwnedOk(n);
    WrapMove(s.start + s.last, n - s.last, |s.Current()|);
    assert s.Tracks(|s.tails| - 1, s.tails[|s.tails| - 1], n, s.last - n);
  }

  lemma TailsKept<T>(s: State<T>, s': State<T>)
    requires s'.Ok() && |s.tails| <= |s'.tails|
    requires forall h | 0 <= h < |s.tails| && h < |s'.tails| - 1 :: s'.tails[h] == s.tails[h]
    requires forall h, f, n, back | s.Tracks(h, f, n, back) && n in s'.owner :: s'.Tracks(h, f, n, back)
    ensures forall h, n | s.Reaches(h, n) && n in s'.owner :: s'.Reaches(h, n)
  {
    forall h: nat, n: int | s.Reaches(h, n) && n in s'.owner ensures s'.Reaches(h, n) {
      if h == |s'.tails| - 1 {
        CurrentTailReaches(s', n);
      } else {
        var back: nat :| s.Tracks(h, s.tails[h], n, back);
        assert s'.Tracks(h, s'.tails[h], n, back);
      }
    }
  }

  // ---- Each step keeps the invariant and the consumers' way to their blocks ----

  // A block whose entry may be taken over is not in use.
  lemma FreeIsUnused<T>(s: State<T>)
    requires s.AtEnd() && s.NextFree()
    ensures s.filled == |s.Current()| ==> s.last + 1 - |s.Current()| !in s.owner
  {
    var n := s.last + 1 - |s.Current()|;
    NumbersAgree(s, s.last + 1);
    if s.filled == |s.Current()| && n in s.owner {
      assert s.OwnedOk(n) && s.Key(n) == 32 * n;
    }
  }

  lemma KeyStoredSlots<T>(s: State<T>)
    requires s.AtEnd() && s.NextFree()
    ensures s.KeyStored().ArraysOk() && s.KeyStored().SlotsOk()
    ensures forall n | s.last + 1 - |s.Current()| < n <= s.last :: s.KeyStored().Key(n) == s.Key(n)
  {
    var s' := s.KeyStored();
    forall n | s.last + 1 - |s.Current()| < n <= s.last ensures s'.Key(n) == s.Key(n) {
      NumbersDiffer(s, n, s.last + 1);
    }
  }

  lemma KeyStoredOwners<T>(s: State<T>)
    requires s.AtEnd() && s.NextFree() && s.KeyStored().ArraysOk()
    ensures s.KeyStored().OwnersOk()
  {
    var s' := s.KeyStored();
    FreeIsUnused(s);
    forall n | n in s'.owner ensures s'.OwnedOk(n) {
      assert s.OwnedOk(n);
    }
  }

  // Elements and blocks in use are as before, and nothing is given back.
  lemma SameItems<T>(s: State<T>, s': State<T>)
    requires s.ItemsOk() && s'.headIndex == s.headIndex && s'.tailIndex == s.tailIndex
    requires s'.items == s.items && s'.finished == s.finished && s'.owner == s.owner && s'.blocks == s.blocks
    requires forall n | 0 <= n <= s'.last :: s'.GoneOk(n)
    ensures s'.ItemsOk()
  {
    forall i: nat | s'.Pending(i) ensures s'.Holds(i) {
      assert s.Holds(i);
    }
  }

  lemma KeyStoredTracks<T>(s: State<T>, h: nat, f: nat, n: int, back: nat)
    requires s.ArraysOk() && s.tailIndex == 32 * (s.last + 1) && s.last + 1 - |s.Current()| < n
    requires s.KeyStored().ArraysOk() && s.Tracks(h, f, n, back)
    ensures s.KeyStored().Tracks(h, f, n, back)
  {
    if n + back <= s.last {
      NumbersDiffer(s, n + back, s.last + 1);
    }
  }

  lemma KeyStoredStep<T>(s: State<T>)
    requires s.AtEnd() && s.NextFree()
    ensures s.KeyStored().Ok() && Kept(s, s.KeyStored())
  {
    var s' := s.KeyStored();
    KeyStoredSlots(s);
    KeyStoredOwners(s);
    forall n | 0 <= n <= s'.last ensures s'.GoneOk(n) {
      assert s.GoneOk(n);
    }
    SameItems(s, s');
    forall h: nat, f: nat, n: int, back: nat | s.Tracks(h, f, n, back) && n in s'.owner
      ensures s'.Tracks(h, f, n, back)
    {
      assert s'.OwnedOk(n);
      KeyStoredTracks(s, h, f, n, back);
    }
    assert s'.Inv();
    TailsKept(s, s');
    assert Keeps(s, s');
  }

  lemma TailStoredArrays<T>(s: State<T>)
    requires s.ArraysOk()
    ensures s.TailStored().ArraysOk()
    ensures forall n :: s.TailStored().Key(n) == s.Key(n)
  {
    WrapMove(s.start + s.last, 1, |s.Current()|);
  }

  lemma TailStoredSlots<T>(s: State<T>)
    requires s.ArraysOk() && s.SlotsOk() && s.stage == Keyed && s.TailStored().ArraysOk()
    requires forall n :: s.TailStored().Key(n) == s.Key(n)
    ensures s.TailStored().SlotsOk()
  {
    var s' := s.TailStored();
    if s'.filled < |s.Current()| {
      NumbersAgree(s, s'.last + 1);
      assert s.Key(s'.last + 1 - |s.Current()|) == INVALID_BLOCK_BASE;
    }
  }

  // The tail moves, but entries, blocks and owners are as before.
  ghost predicate MovesTail<T>(s: State<T>, s': State<T>) {
    && s.ArraysOk() && s'.ArraysOk() && s'.entries == s.entries && s'.indices == s.indices && s'.start == s.start
    && s'.blocks == s.blocks && s'.owner == s.owner && s'.finished == s.finished && s'.releasing == s.releasing
    && s'.last - s'.filled == s.last - s.filled
  }

  lemma SameOwners<T>(s: State<T>, s': State<T>)
    requires MovesTail(s, s') && s.OwnersOk() && (s'.stage == Opened ==> s'.last !in s.owner)
    requires forall n | n in s.owner :: n <= s'.last
    ensures s'.OwnersOk()
  {
    forall n | n in s'.owner ensures s'.OwnedOk(n) {
      assert s.OwnedOk(n) && s'.DoneIn(n) == s.DoneIn(n);
    }
  }

  lemma SameTracks<T>(s: State<T>, s': State<T>, h: nat, f: nat, n: int, back: nat)
    requires MovesTail(s, s') && s.Tracks(h, f, n, back) && n + back <= s'.last + 1
    ensures s'.Tracks(h, f, n, back)
  {
    assert s'.Key(n + back) == s.Key(n + back);
  }

  lemma TailStoredStep<T>(s: State<T>)
    requires s.Ok() && s.stage == Keyed
    ensures s.TailStored().Ok() && Kept(s, s.TailStored())
  {
    var s' := s.TailStored();
    TailStoredArrays(s);
    TailStoredSlots(s);
    forall n | n in s.owner ensures n <= s.last {
      assert s.OwnedOk(n);
    }
    SameOwners(s, s');
    forall n | 0 <= n <= s'.last ensures s'.GoneOk(n) {
      assert n <= s.last ==> s.GoneOk(n);
    }
    SameItems(s, s');
    forall h: nat, f: nat, n: int, back: nat | s.Tracks(h, f, n, back) && n in s'.owner
      ensures s'.Tracks(h, f, n, back)
    {
      SameTracks(s, s', h, f, n, back);
    }
    assert s'.Inv();
    TailsKept(s, s');
    assert Keeps(s, s');
  }

  lemma RewoundArrays<T>(s: State<T>)
    requires s.ArraysOk() && 0 <= s.last && 0 < s.filled
    ensures s.Rewound().ArraysOk()
    ensures forall n :: s.Rewound().Key(n) == s.Key(n)
  {
    WrapMove(s.start + s.last, -1, |s.Current()|);
    forall n ensures s.Rewound().Key(n) == s.Key(n) {
    }
  }

  lemma RewoundSlots<T>(s: State<T>)
    requires s.ArraysOk() && s.SlotsOk() && s.stage == Opened && 0 <= s.last
    ensures s.Rewound().ArraysOk() && s.Rewound().SlotsOk()
  {
    var s' := s.Rewound();
    RewoundArrays(s);
    NumbersAgree(s, s.last + 1);
    forall n | s'.last - s'.filled < n <= s'.last ensures s'.Key(n) == 32 * n {
      assert s'.Key(n) == s.Key(n);
    }
    forall n | s'.last + 1 - |s.Current()| < n <= s'.last - s'.filled ensures s'.Key(n) == INVALID_BLOCK_BASE {
      assert s'.Key(n) == s.Key(n);
    }
    assert s'.Key(s.last) == s.Key(s.last);
  }

  // A consumer cannot have seen a newer entry than the one that is taken back.
  lemma NothingNewer<T>(s: State<T>, h: nat, f: nat, n: int, back: nat)
    requires s.ArraysOk() && s.SlotsOk() && s.stage == Opened && s.Tracks(h, f, n, back)
    ensures n + back <= s.last
  {
    NumbersAgree(s, s.last + 1);
    var oldest := s.last + 1 - |s.Current()|;
    assert s.filled == |s.Current()| ==> s.Key(s.last + 1) == s.Key(oldest) == 32 * oldest;
  }

  lemma RewoundStep<T>(s: State<T>)
    requires s.Ok() && s.stage == Opened
    ensures s.Rewound().Ok() && Kept(s, s.Rewound())
  {
    var s' := s.Rewound();
    RewoundSlots(s);
    forall n | n in s.owner ensures n <= s'.last {
      assert s.OwnedOk(n);
    }
    SameOwners(s, s');
    forall n | 0 <= n <= s'.last ensures s'.GoneOk(n) {
      assert s.GoneOk(n);
    }
    SameItems(s, s');
    forall h: nat, f: nat, n: int, back: nat | s.Tracks(h, f, n, back) && n in s'.owner
      ensures s'.Tracks(h, f, n, back)
    {
      NothingNewer(s, h, f, n, back);
      SameTracks(s, s', h, f, n, back);
    }
    assert s'.Inv();
    TailsKept(s, s');
    assert Keeps(s, s');
  }

  lemma ValueStoredSlots<T>(s: State<T>, b: nat, block: Block<T>)
    requires s.CanStore(b, block)
    ensures s.ValueStored(b, block).ArraysOk() && s.ValueStored(b, block).SlotsOk()
  {
    var s' := s.ValueStored(b, block);
    forall n ensures s'.Key(n) == s.Key(n) {
    }
  }

  // No element of the new block was ever claimed.
  lemma NothingDone<T>(s: State<T>)
    requires s.Ok() && s.stage == Opened
    ensures s.DoneIn(s.last) == {}
  {
  }

  lemma ValueStoredOwned<T>(s: State<T>, b: nat, block: Block<T>, n: int)
    requires s.ArraysOk() && s.ValueStored(b, block).ArraysOk() && WholeBlock(block) && b !in s.blocks
    requires 0 < s.filled <= |s.Current()| && s.DoneIn(s.last) == {} && s.last !in s.releasing
    requires n == s.last || (n in s.owner && s.OwnedOk(n))
    ensures s.ValueStored(b, block).OwnedOk(n)
  {
    assert s.ValueStored(b, block).DoneIn(n) == s.DoneIn(n);
    if n != s.last {
      NumbersDiffer(s, n, s.last);
    }
  }

  // Every block in use still has a number, and its own.
  lemma ValueStoredNames<T>(s: State<T>, b: nat, block: Block<T>)
    requires s.ArraysOk() && s.OwnersOk() && b !in s.blocks && s.last !in s.owner
    ensures var s' := s.ValueStored(b, block);
            && (forall x | x in s'.blocks :: exists n :: n in s'.owner && s'.owner[n] == x)
            && (forall n, m | n in s'.owner && m in s'.owner && n != m :: s'.owner[n] != s'.owner[m])
  {
    var s' := s.ValueStored(b, block);
    forall x | x in s'.blocks ensures exists n :: n in s'.owner && s'.owner[n] == x {
      if x == b {
        assert s'.owner[s.last] == b;
      } else {
        var n :| n in s.owner && s.owner[n] == x;
        assert s'.owner[n] == x;
      }
    }
    forall n | n in s.owner ensures s.owner[n] != b {
      assert s.OwnedOk(n);
    }
  }

  lemma ValueStoredOwners<T>(s: State<T>, b: nat, block: Block<T>)
    requires s.CanStore(b, block) && s.ValueStored(b, block).ArraysOk()
    ensures s.ValueStored(b, block).OwnersOk()
  {
    var s' := s.ValueStored(b, block);
    NothingDone(s);
    ValueStoredNames(s, b, block);
    forall n | n in s'.owner ensures s'.OwnedOk(n) {
      assert n != s.last ==> s.OwnedOk(n);
      ValueStoredOwned(s, b, block, n);
    }
  }

  lemma ValueStoredItems<T>(s: State<T>, b: nat, block: Block<T>)
    requires s.CanStore(b, block)
    ensures s.ValueStored(b, block).ItemsOk() && s.ValueStored(b, block).TailOk()
  {
    var s' := s.ValueStored(b, block);
    forall i: nat | s'.Pending(i) ensures s'.Holds(i) {
      assert s.Pending(i) && s.Holds(i);
    }
    forall n | 0 <= n <= s'.last ensures s'.GoneOk(n) {
      assert s.GoneOk(n);
    }
  }

  lemma ValueStoredTracks<T>(s: State<T>, b: nat, block: Block<T>, h: nat, f: nat, n: int, back: nat)
    requires s.ArraysOk() && s.ValueStored(b, block).ArraysOk() && s.Tracks(h, f, n, back)
    ensures s.ValueStored(b, block).Tracks(h, f, n, back)
  {
    assert s.ValueStored(b, block).Key(n + back) == s.Key(n + back);
  }

  lemma ValueStoredStep<T>(s: State<T>, b: nat, block: Block<T>)
    requires s.CanStore(b, block)
    ensures s.ValueStored(b, block).Ok() && Kept(s, s.ValueStored(b, block))
  {
    var s' := s.ValueStored(b, block);
    ValueStoredSlots(s, b, block);
    ValueStoredOwners(s, b, block);
    ValueStoredItems(s, b, block);
    forall h: nat, f: nat, n: int, back: nat | s.Tracks(h, f, n, back) && n in s'.owner
      ensures s'.Tracks(h, f, n, back)
    {
      ValueStoredTracks(s, b, block, h, f, n, back);
    }
    assert s'.Inv();
    TailsKept(s, s');
    assert Keeps(s, s');
  }

  lemma NullStoredSlots<T>(s: State<T>)
    requires s.Ok() && s.stage == Rewinding
    ensures s.NullStored().ArraysOk() && s.NullStored().SlotsOk()
  {
    var s' := s.NullStored();
    forall n ensures s'.Key(n) == s.Key(n) {
    }
  }

  lemma NullStoredOwners<T>(s: State<T>)
    requires s.ArraysOk() && s.OwnersOk() && s.NullStored().ArraysOk()
    requires s.filled < |s.Current()| && s.stage == Rewinding
    ensures s.NullStored().OwnersOk()
  {
    var s' := s.NullStored();
    forall n | n in s'.owner ensures s'.OwnedOk(n) {
      assert s.OwnedOk(n) && s'.DoneIn(n) == s.DoneIn(n);
      NumbersDiffer(s, n, s.last + 1);
    }
  }

  lemma NullStoredTracks<T>(s: State<T>, h: nat, f: nat, n: int, back: nat)
    requires s.ArraysOk() && s.NullStored().ArraysOk() && s.Tracks(h, f, n, back)
    ensures s.NullStored().Tracks(h, f, n, back)
  {
    assert s.NullStored().Key(n + back) == s.Key(n + back);
  }

  lemma NullStoredStep<T>(s: State<T>)
    requires s.Ok() && s.stage == Rewinding
    ensures s.NullStored().Ok() && Kept(s, s.NullStored())
  {
    var s' := s.NullStored();
    NullStoredSlots(s);
    NullStoredOwners(s);
    forall n | 0 <= n <= s'.last ensures s'.GoneOk(n) {
      assert s.GoneOk(n);
    }
    SameItems(s, s');
    forall h: nat, f: nat, n: int, back: nat | s.Tracks(h, f, n, back) && n in s'.owner
      ensures s'.Tracks(h, f, n, back)
    {
      NullStoredTracks(s, h, f, n, back);
    }
    assert s'.Inv();
    TailsKept(s, s');
    assert Keeps(s, s');
  }

  // ---- Growth ----

  // The entries of the numbers behind the newest one have moved to the new array.
  lemma GrownEntries<T>(s: State<T>, junk: seq<Option<nat>>, index: seq<nat>, n: int)
    requires s.ArraysOk() && s.IsLarger(junk, index) && s.last - |s.Current()| < n <= s.last
    ensures s.Grown(junk, index).ArraysOk()
    ensures s.Grown(junk, index).EntryOf(n) == s.EntryOf(n)
  {
    GrownArrays(s, junk, index);
    RotatedSlot(s.start, s.last, n, |s.Current()|);
  }

  lemma RotatedSlot(start: int, last: int, n: int, size: nat)
    requires last - size < n <= last
    ensures var k := size - 1 - last + n;
            0 <= k < size && Wrap(k, 2 * size) == k &&
              Wrap(Wrap(start + last, size) + 1 + k, size) == Wrap(start + n, size)
  {
    var k := size - 1 - last + n;
    WrapIsUnique(k, 0, k, 2 * size);
    WrapMove(start + last, 1 + k, size);
    WrapMove(start + n, size, size);
  }

  lemma GrownArrays<T>(s: State<T>, junk: seq<Option<nat>>, index: seq<nat>)
    requires s.ArraysOk() && s.IsLarger(junk, index)
    ensures s.Grown(junk, index).ArraysOk()
  {
    var s', size := s.Grown(junk, index), |s.Current()|;
    WrapIsUnique(size - 1, 0, size - 1, 2 * size);
    forall j, k | 0 <= j < k < 2 * size ensures index[j] != index[k] {
      if k < size {
        var t := s.tails[|s.tails| - 1];
        WrapsDiffer(t + 1 + j, t + 1 + k, size);
      }
    }
  }

  lemma GrownUnused<T>(s: State<T>, junk: seq<Option<nat>>, index: seq<nat>, n: int)
    requires s.ArraysOk() && s.IsLarger(junk, index) && s.Grown(junk, index).ArraysOk()
    requires s.last + 1 - 2 * |s.Current()| <= n <= s.last - |s.Current()|
    ensures s.Grown(junk, index).Key(n) == INVALID_BLOCK_BASE
  {
    var size := |s.Current()|;
    var k := size - 1 - s.last + n;
    WrapIsUnique(k, -1, k + 2 * size, 2 * size);
  }

  lemma BusyIsFull<T>(s: State<T>)
    requires s.AtEnd() && !s.NextFree()
    ensures s.filled == |s.Current()|
  {
  }

  lemma GrownSlots<T>(s: State<T>, junk: seq<Option<nat>>, index: seq<nat>)
    requires s.CanGrow(junk, index) && s.Grown(junk, index).ArraysOk()
    ensures s.Grown(junk, index).SlotsOk()
  {
    var s', size := s.Grown(junk, index), |s.Current()|;
    BusyIsFull(s);
    forall n | s.last - s.filled < n <= s.last ensures s'.Key(n) == 32 * n {
      GrownEntries(s, junk, index, n);
      assert s.Key(n) == 32 * n;
    }
    forall n | s.last + 1 - 2 * size < n <= s.last - size ensures s'.Key(n) == INVALID_BLOCK_BASE {
      GrownUnused(s, junk, index, n);
    }
    GrownUnused(s, junk, index, s.last + 1 - 2 * size);
    NumbersAgree(s', s.last + 1);
  }

  lemma GrownOwners<T>(s: State<T>, junk: seq<Option<nat>>, index: seq<nat>)
    requires s.CanGrow(junk, index) && s.Grown(junk, index).ArraysOk()
    ensures s.Grown(junk, index).OwnersOk()
  {
    var s' := s.Grown(junk, index);
    BusyIsFull(s);
    forall n | n in s'.owner ensures s'.OwnedOk(n) {
      assert s.OwnedOk(n) && s'.DoneIn(n) == s.DoneIn(n);
      GrownEntries(s, junk, index, n);
    }
  }

  lemma GrownTracks<T>(s: State<T>, junk: seq<Option<nat>>, index: seq<nat>, h: nat, f: nat, n: int, back: nat)
    requires s.ArraysOk() && s.IsLarger(junk, index) && s.Grown(junk, index).ArraysOk() && s.Tracks(h, f, n, back)
    requires s.last - |s.Current()| < n && n + back <= s.last
    ensures s.Grown(junk, index).Tracks(h, f, n, back)
  {
    GrownEntries(s, junk, index, n);
    GrownEntries(s, junk, index, n + back);
  }

  // Nor one newer than the newest when the array is full.
  lemma NothingNewerInFull<T>(s: State<T>, h: nat, f: nat, n: int, back: nat)
    requires s.ArraysOk() && s.SlotsOk() && s.filled == |s.Current()| && s.Tracks(h, f, n, back)
    ensures n + back <= s.last
  {
    NumbersAgree(s, s.last + 1);
    var oldest := s.last + 1 - |s.Current()|;
    assert s.Key(s.last + 1) == s.Key(oldest) == 32 * oldest;
  }

  lemma GrownStep<T>(s: State<T>, junk: seq<Option<nat>>, index: seq<nat>)
    requires s.CanGrow(junk, index)
    ensures s.Grown(junk, index).Ok() && Kept(s, s.Grown(junk, index)) && s.Grown(junk, index).NextFree()
  {
    var s' := s.Grown(junk, index);
    GrownArrays(s, junk, index);
    GrownSlots(s, junk, index);
    GrownOwners(s, junk, index);
    BusyIsFull(s);
    GrownUnused(s, junk, index, s.last + 1 - 2 * |s.Current()|);
    NumbersAgree(s', s.last + 1);
    forall n | 0 <= n <= s'.last ensures s'.GoneOk(n) {
      assert s.GoneOk(n);
    }
    SameItems(s, s');
    forall h: nat, f: nat, n: int, back: nat | s.Tracks(h, f, n, back) && n in s'.owner
      ensures s'.Tracks(h, f, n, back)
    {
      assert s.OwnedOk(n);
      NothingNewerInFull(s, h, f, n, back);
      GrownTracks(s, junk, index, h, f, n, back);
    }
    assert s'.Inv();
    TailsKept(s, s');
    assert Keeps(s, s');
  }

  // ---- Elements in and out ----

  // The arrays, the entries and the numbers are as before.
  ghost predicate SameIndex<T>(s: State<T>, s': State<T>) {
    && s'.entries == s.entries && s'.indices == s.indices && s'.tails == s.tails && s'.stage == s.stage
    && s'.last == s.last && s'.filled == s.filled && s'.start == s.start && s'.owner == s.owner
  }

  lemma SlotsFrame<T>(s: State<T>, s': State<T>)
    requires s.ArraysOk() && s.SlotsOk() && SameIndex(s, s')
    ensures s'.ArraysOk() && s'.SlotsOk()
  {
    forall n ensures s'.Key(n) == s.Key(n) {
    }
  }

  lemma IndexFrame<T>(s: State<T>, s': State<T>)
    requires s.ArraysOk() && s.SlotsOk() && SameIndex(s, s')
    ensures s'.ArraysOk() && s'.SlotsOk()
    ensures forall h, f, n, back | s.Tracks(h, f, n, back) && n in s'.owner :: s'.Tracks(h, f, n, back)
  {
    SlotsFrame(s, s');
    forall h: nat, f: nat, n: int, back: nat | s.Tracks(h, f, n, back) ensures s'.Tracks(h, f, n, back) {
      assert s'.Key(n + back) == s.Key(n + back);
    }
  }

  lemma AppendedOwners<T>(s: State<T>, x: T)
    requires s.CanAppend() && s.Appended(x).ArraysOk()
    ensures s.Appended(x).OwnersOk()
  {
    var s' := s.Appended(x);
    forall n | n in s'.owner ensures s'.OwnedOk(n) {
      assert s.OwnedOk(n) && s'.DoneIn(n) == s.DoneIn(n);
    }
    assert forall b :: b in s'.blocks <==> b in s.blocks;
  }

  lemma AppendedItems<T>(s: State<T>, x: T)
    requires s.CanAppend()
    ensures s.Appended(x).ItemsOk() && s.Appended(x).TailOk()
  {
    var s' := s.Appended(x);
    forall i: nat | s'.Pending(i) ensures s'.Holds(i) {
      if i < s.tailIndex {
        assert s.Pending(i) && s.Holds(i);
      } else {
        assert s.OwnedOk(s.last);
      }
    }
    forall n | 0 <= n <= s'.last ensures s'.GoneOk(n) {
      assert s.GoneOk(n);
    }
  }

  lemma AppendedKeepsOk<T>(s: State<T>, x: T)
    requires s.CanAppend()
    ensures s.InUse(s.last) && s.Appended(x).Ok()
  {
    TailIsOwned(s);
    IndexFrame(s, s.Appended(x));
    AppendedOwners(s, x);
    AppendedItems(s, x);
    assert s.Appended(x).Inv();
  }

  // A step that leaves the index alone leaves the consumers their way.
  lemma SameIndexKeeps<T>(s: State<T>, s': State<T>)
    requires s.ArraysOk() && s.SlotsOk() && SameIndex(s, s') && s'.Ok()
    requires s.items <= s'.items && s.finished <= s'.finished
    requires s.headIndex <= s'.headIndex && s.tailIndex <= s'.tailIndex
    ensures Kept(s, s')
  {
    IndexFrame(s, s');
    TailsKept(s, s');
    assert Keeps(s, s');
  }

  lemma NextMultiple(tail: nat, last: int)
    requires 32 * last <= tail < 32 * last + 32
    ensures (tail + 1) % 32 == 0 ==> tail + 1 == 32 * last + 32
  {
  }

  lemma AppendedStep<T>(s: State<T>, x: T)
    requires s.CanAppend()
    ensures s.InUse(s.last) && s.Appended(x).IsReady() && Kept(s, s.Appended(x))
  {
    AppendedKeepsOk(s, x);
    NextMultiple(s.tailIndex, s.last);
    SameIndexKeeps(s, s.Appended(x));
  }

  // `headIndex.fetch_add(n)`: the next n elements are claimed.
  ghost function Claimed<T>(s: State<T>, n: nat): State<T> { s.(headIndex := s.headIndex + n) }

  ghost predicate CanClaim<T>(s: State<T>, n: nat) { s.Ok() && s.headIndex + n <= s.tailIndex }

  lemma ClaimedKeepsOk<T>(s: State<T>, n: nat)
    requires CanClaim(s, n)
    ensures Claimed(s, n).Ok()
  {
    var s' := Claimed(s, n);
    IndexFrame(s, s');
    forall n | n in s'.owner ensures s'.OwnedOk(n) {
      assert s.OwnedOk(n) && s'.DoneIn(n) == s.DoneIn(n);
    }
    forall i: nat | s'.Pending(i) ensures s'.Holds(i) {
      assert s.Pending(i) && s.Holds(i);
    }
    forall n | 0 <= n <= s'.last ensures s'.GoneOk(n) {
      assert s.GoneOk(n);
    }
    assert s'.Inv();
  }

  lemma ClaimedStep<T>(s: State<T>, n: nat)
    requires CanClaim(s, n)
    ensures Claimed(s, n).Ok() && Kept(s, Claimed(s, n))
  {
    ClaimedKeepsOk(s, n);
    SameIndexKeeps(s, Claimed(s, n));
  }

  // A block counts at most 32 elements, and 32 only if all of them are out.
  lemma DoneBound<T>(s: State<T>, n: nat)
    ensures |s.DoneIn(n)| <= 32
    ensures |s.DoneIn(n)| == 32 ==> forall i: nat | BlockNo(i) == n :: i in s.finished
  {
    var block := Range(32 * n, 32 * n + 32);
    SubsetSize(s.DoneIn(n), block);
    if |s.DoneIn(n)| == 32 {
      forall i: nat | BlockNo(i) == n ensures i in s.finished {
        assert i in block;
      }
    }
  }

  lemma DoneGrows<T>(s: State<T>, i: nat, n: int)
    requires i !in s.finished && s.InUse(BlockNo(i))
    ensures s.Consumed(i).DoneIn(n) == if n == BlockNo(i) then s.DoneIn(n) + {i} else s.DoneIn(n)
    ensures n == BlockNo(i) ==> |s.Consumed(i).DoneIn(n)| == |s.DoneIn(n)| + 1
  {
    assert s.Consumed(i).DoneIn(n) == if n == BlockNo(i) then s.DoneIn(n) + {i} else s.DoneIn(n);
  }

  lemma ConsumedOwned<T>(s: State<T>, i: nat, n: int)
    requires s.CanConsume(i) && s.Holds(i) && s.Consumed(i).ArraysOk() && n in s.owner
    ensures s.Consumed(i).OwnedOk(n)
  {
    assert s.OwnedOk(n);
    DoneGrows(s, i, n);
    if n == BlockNo(i) {
      DoneBound(s.Consumed(i), n);
    }
  }

  lemma ConsumedOwners<T>(s: State<T>, i: nat)
    requires s.CanConsume(i) && s.Holds(i) && s.Consumed(i).ArraysOk()
    ensures s.Consumed(i).OwnersOk()
  {
    var s' := s.Consumed(i);
    forall n | n in s'.owner ensures s'.OwnedOk(n) {
      ConsumedOwned(s, i, n);
    }
    assert forall b :: b in s'.blocks <==> b in s.blocks;
  }

  lemma ConsumedItems<T>(s: State<T>, i: nat)
    requires s.CanConsume(i)
    ensures s.Consumed(i).ItemsOk() && s.Consumed(i).TailOk()
  {
    var s' := s.Consumed(i);
    forall j: nat | s'.Pending(j) ensures s'.Holds(j) {
      assert s.Pending(j) && s.Holds(j);
      assert BlockNo(j) != BlockNo(i) ==> s.owner[BlockNo(j)] != s.owner[BlockNo(i)];
    }
    forall n | 0 <= n <= s'.last ensures s'.GoneOk(n) {
      assert s.GoneOk(n);
    }
  }

  lemma ConsumedKeepsOk<T>(s: State<T>, i: nat)
    requires s.CanConsume(i)
    ensures s.InUse(BlockNo(i)) && s.Consumed(i).Ok()
  {
    assert s.Holds(i);
    IndexFrame(s, s.Consumed(i));
    ConsumedOwners(s, i);
    ConsumedItems(s, i);
    assert s.Consumed(i).Inv();
  }

  lemma ConsumedStep<T>(s: State<T>, i: nat)
    requires s.CanConsume(i)
    ensures s.InUse(BlockNo(i)) && s.Consumed(i).Ok() && Kept(s, s.Consumed(i))
  {
    ConsumedKeepsOk(s, i);
    SameIndexKeeps(s, s.Consumed(i));
  }

  // A block that is given back was filled and holds no element any more.
  lemma ReleasedIsEmpty<T>(s: State<T>, n: int)
    requires s.CanRelease(n)
    ensures n in s.owner && 0 <= n && 32 * n + 32 <= s.tailIndex
    ensures forall i: nat | s.Pending(i) :: BlockNo(i) != n
  {
    assert s.OwnedOk(n);
    assert n < 0 ==> s.DoneIn(n) == {};
    DoneBound(s, n);
    assert BlockNo(32 * n + 31) == n;
  }

  lemma ReleasedSlots<T>(s: State<T>, n: int)
    requires s.ArraysOk() && s.SlotsOk() && n in s.owner && (s.Reopened() ==> n != s.last + 1)
    ensures s.Released(n).ArraysOk() && s.Released(n).SlotsOk()
  {
    var s' := s.Released(n);
    forall m ensures s'.Key(m) == s.Key(m) {
    }
  }

  lemma ReleasedOwners<T>(s: State<T>, n: int)
    requires s.CanRelease(n) && s.Released(n).ArraysOk()
    ensures s.Released(n).OwnersOk()
  {
    var s' := s.Released(n);
    assert s.OwnedOk(n);
    forall m | m in s'.owner ensures s'.OwnedOk(m) {
      assert s.OwnedOk(m) && s'.DoneIn(m) == s.DoneIn(m);
      if m < n {
        NumbersDiffer(s, m, n);
      } else {
        NumbersDiffer(s, n, m);
      }
    }
    forall b | b in s'.blocks ensures exists m :: m in s'.owner && s'.owner[m] == b {
      var m :| m in s.owner && s.owner[m] == b;
      assert m in s'.owner;
    }
  }

  lemma ReleasedItems<T>(s: State<T>, n: int)
    requires s.CanRelease(n)
    ensures s.Released(n).ItemsOk() && s.Released(n).TailOk()
  {
    var s' := s.Released(n);
    ReleasedIsEmpty(s, n);
    forall i: nat | s'.Pending(i) ensures s'.Holds(i) {
      assert s.Pending(i) && s.Holds(i);
      assert s.owner[BlockNo(i)] != s.owner[n];
    }
    forall m | 0 <= m <= s'.last ensures s'.GoneOk(m) {
      assert s.GoneOk(m);
    }
  }

  lemma ReleasedTracks<T>(s: State<T>, n: int, h: nat, f: nat, m: int, back: nat)
    requires s.ArraysOk() && n in s.owner && s.Released(n).ArraysOk()
    requires s.Tracks(h, f, m, back) && m in s.Released(n).owner
    ensures s.Released(n).Tracks(h, f, m, back)
  {
    assert s.Released(n).Key(m + back) == s.Key(m + back);
  }

  lemma ReleasedKeepsOk<T>(s: State<T>, n: int)
    requires s.CanRelease(n)
    ensures n in s.owner && s.Released(n).Ok()
  {
    ReleasedIsEmpty(s, n);
    ReleasedSlots(s, n);
    ReleasedOwners(s, n);
    ReleasedItems(s, n);
    assert s.Released(n).Inv();
  }

  lemma ReleasedStep<T>(s: State<T>, n: int)
    requires s.CanRelease(n)
    ensures n in s.owner && s.Released(n).Ok() && Kept(s, s.Released(n))
  {
    var s' := s.Released(n);
    ReleasedKeepsOk(s, n);
    ReleasedIsEmpty(s, n);
    forall h: nat, f: nat, m: int, back: nat | s.Tracks(h, f, m, back) && m in s'.owner
      ensures s'.Tracks(h, f, m, back)
    {
      ReleasedTracks(s, n, h, f, m, back);
    }
    TailsKept(s, s');
    assert Keeps(s, s');
  }

  // The steps of the producer that change the index.
  ghost predicate IndexStep<T(!new)>(s: State<T>, s': State<T>) {
    || (s.AtEnd() && s.NextFree() && s' == s.KeyStored())
    || (s.Ok() && s.stage == Keyed && s' == s.TailStored())
    || (exists b, block :: s.CanStore(b, block) && s' == s.ValueStored(b, block))
    || (s.Ok() && s.stage == Opened && s' == s.Rewound())
    || (s.Ok() && s.stage == Rewinding && s' == s.NullStored())
    || (exists junk, index :: s.CanGrow(junk, index) && s' == s.Grown(junk, index))
  }

  // Elements put in, claimed and moved out, and blocks given back.
  ghost predicate ElementStep<T(!new)>(s: State<T>, s': State<T>) {
    || (exists x :: s.CanAppend() && s' == s.Appended(x))
    || (exists n: nat :: CanClaim(s, n) && s' == Claimed(s, n))
    || (exists i :: s.CanConsume(i) && s' == s.Consumed(i))
    || (exists n :: s.CanRelease(n) && s' == s.Released(n))
  }

  // One step of the producer or of a consumer.
  ghost predicate Next<T(!new)>(s: State<T>, s': State<T>) {
    IndexStep(s, s') || ElementStep(s, s')
  }

  lemma IndexStepKeeps<T(!new)>(s: State<T>, s': State<T>)
    requires IndexStep(s, s')
    ensures s'.Ok() && Kept(s, s')
  {
    if s.AtEnd() && s.NextFree() && s' == s.KeyStored() {
      KeyStoredStep(s);
    } else if s.Ok() && s.stage == Keyed && s' == s.TailStored() {
      TailStoredStep(s);
    } else if b, block :| s.CanStore(b, block) && s' == s.ValueStored(b, block) {
      ValueStoredStep(s, b, block);
    } else if s.Ok() && s.stage == Opened && s' == s.Rewound() {
      RewoundStep(s);
    } else if s.Ok() && s.stage == Rewinding && s' == s.NullStored() {
      NullStoredStep(s);
    } else {
      var junk: seq<Option<nat>>, index: seq<nat> :| s.CanGrow(junk, index) && s' == s.Grown(junk, index);
      GrownStep(s, junk, index);
    }
  }

  lemma ElementStepKeeps<T(!new)>(s: State<T>, s': State<T>)
    requires ElementStep(s, s')
    ensures s'.Ok() && Kept(s, s')
  {
    if x :| s.CanAppend() && s' == s.Appended(x) {
      AppendedStep(s, x);
    } else if n: nat :| CanClaim(s, n) && s' == Claimed(s, n) {
      ClaimedStep(s, n);
    } else if i :| s.CanConsume(i) && s' == s.Consumed(i) {
      ConsumedStep(s, i);
    } else {
      var n: int :| s.CanRelease(n) && s' == s.Released(n);
      ReleasedStep(s, n);
    }
  }

  lemma StepKeeps<T(!new)>(s: State<T>, s': State<T>)
    requires Next(s, s')
    ensures s'.Ok() && Kept(s, s')
  {
    if IndexStep(s, s') {
      IndexStepKeeps(s, s');
    } else {
      ElementStepKeeps(s, s');
    }
  }

  // ---- Whole runs ----

  ghost predicate StepAt<T(!new)>(run: seq<State<T>>, k: nat)
    requires k + 1 < |run|
  {
    Next(run[k], run[k + 1])
  }

  ghost predicate Run<T(!new)>(run: seq<State<T>>) {
    |run| > 0 && run[0].Ok() && forall k | 0 <= k < |run| - 1 :: StepAt(run, k)
  }

  lemma KeptIsTransitive<T>(s: State<T>, m: State<T>, s': State<T>)
    requires Kept(s, m) && Kept(m, s')
    ensures Kept(s, s')
  {
    forall n | n in s.owner && n in s'.owner ensures n in m.owner {
    }
    forall h: nat, f: nat, n: int, back: nat | s.Tracks(h, f, n, back) && n in s'.owner
      ensures s'.Tracks(h, f, n, back)
    {
      assert n in s.owner;
    }
    forall h: nat, n: int | s.Reaches(h, n) && n in s'.owner ensures s'.Reaches(h, n) {
      assert n in s.owner;
    }
    assert Keeps(s, s');
  }

  lemma KeptIsReflexive<T>(s: State<T>)
    ensures Kept(s, s)
  {
    assert Keeps(s, s);
  }

  lemma RunStep<T(!new)>(run: seq<State<T>>, k: nat)
    requires Run(run) && k + 1 < |run|
    ensures run[k + 1].Ok() && Kept(run[k], run[k + 1])
  {
    assert StepAt(run, k);
    StepKeeps(run[k], run[k + 1]);
  }

  lemma RunOk<T(!new)>(run: seq<State<T>>, k: nat)
    requires Run(run) && k < |run|
    ensures run[k].Ok()
  {
    if k > 0 {
      RunStep(run, k - 1);
    }
  }

  lemma {:induction false} RunKeeps<T(!new)>(run: seq<State<T>>, a: nat, b: nat)
    requires Run(run) && a <= b < |run|
    ensures Kept(run[a], run[b])
    decreases b - a
  {
    if a < b {
      RunKeeps(run, a, b - 1);
      RunStep(run, b - 1);
      KeptIsTransitive(run[a], run[b - 1], run[b]);
    } else {
      KeptIsReflexive(run[a]);
    }
  }

  // The steps of `run` lead from s to s'.
  ghost predicate Path<T(!new)>(run: seq<State<T>>, s: State<T>, s': State<T>) {
    && |run| > 0 && run[0] == s && run[|run| - 1] == s'
    && forall k | 0 <= k < |run| - 1 :: StepAt(run, k)
  }

  ghost predicate Leads<T(!new)>(s: State<T>, s': State<T>) {
    exists run :: Path(run, s, s')
  }

  lemma NoStep<T(!new)>(s: State<T>)
    ensures Leads(s, s)
  {
    assert Path([s], s, s);
  }

  lemma OneStep<T(!new)>(s: State<T>, s': State<T>)
    requires Next(s, s')
    ensures Leads(s, s')
  {
    var run := [s, s'];
    assert StepAt(run, 0);
    assert Path(run, s, s');
  }

  lemma LeadsOn<T(!new)>(s: State<T>, m: State<T>, s': State<T>)
    requires Leads(s, m) && Leads(m, s')
    ensures Leads(s, s')
  {
    var a: seq<State<T>> :| Path(a, s, m);
    var b: seq<State<T>> :| Path(b, m, s');
    var run := a + b[1..];
    forall k | 0 <= k < |run| - 1 ensures StepAt(run, k) {
      if k < |a| - 1 {
        assert StepAt(a, k);
      } else {
        assert StepAt(b, k - |a| + 1) && run[k] == b[k - |a| + 1] && run[k + 1] == b[k - |a| + 2];
      }
    }
    assert Path(run, s, s');
  }

  // Whatever the producer and undisturbed consumers do, late consumers find their way.
  lemma LeadsKeeps<T(!new)>(s: State<T>, s': State<T>)
    requires s.Ok() && Leads(s, s')
    ensures s'.Ok() && Kept(s, s')
  {
    var run: seq<State<T>> :| Path(run, s, s');
    assert Run(run);
    RunOk(run, |run| - 1);
    RunKeeps(run, 0, |run| - 1);
  }

  // With tail f of array h and the base read in state s, the entry that a consumer which claimed the
  // indices from `first` on comes to for index i. (dequeue has i == first.)
  ghost predicate FindsEntry<T>(s: State<T>, h: nat, f: nat, first: nat, i: nat, e: nat) {
    && h < |s.indices| && f < |s.indices[h]| && s.indices[h][f] < |s.entries|
    && var offset := (BaseOf(first) - s.entries[s.indices[h][f]].key) / 32;
       var slot := Wrap(f + offset, |s.indices[h]|);
       e == s.indices[h][Wrap(slot + BlockNo(i) - BlockNo(first), |s.indices[h]|)]
  }

  lemma TrackFinds<T>(s: State<T>, h: nat, f: nat, first: nat, i: nat, back: nat)
    requires s.Tracks(h, f, BlockNo(i), back) && first <= i
    ensures FindsEntry(s, h, f, first, i, s.EntryOf(BlockNo(i)))
  {
    var walk := BlockNo(i) - BlockNo(first);
    assert BaseOf(first) - s.Key(BlockNo(i) + back) == 32 * (0 - back - walk);
    WrapMove(f - back - walk, walk, |s.indices[h]|);
  }

  // What such a consumer comes to that reads the index array, its tail, an entry's base, an entry's block
  // and the element at five moments of a run.
  ghost predicate Finds<T(!new)>(run: seq<State<T>>, first: nat, i: nat, t0: nat, t1: nat, t2: nat, t3: nat, t4: nat,
                                 e: nat, block: nat)
    requires t0 <= t1 <= t2 <= t3 <= t4 < |run| && 0 < |run[t0].indices| <= |run[t1].tails|
  {
    && FindsEntry(run[t2], |run[t0].indices| - 1, run[t1].tails[|run[t0].indices| - 1], first, i, e)
    && e < |run[t3].entries| && run[t3].entries[e].value == Some(block)
    && block in run[t4].blocks && WholeBlock(run[t4].blocks[block])
    && i < |run[t0].items| && run[t4].blocks[block].elements[Offset(i)] == Some(run[t0].items[i])
  }

  // While i is pending its block is in use.
  lemma StillPending<T(!new)>(run: seq<State<T>>, i: nat, t0: nat, t: nat, t4: nat)
    requires Run(run) && t0 <= t <= t4 < |run| && i < run[t0].tailIndex && i !in run[t4].finished
    ensures run[t].Ok() && run[t].Pending(i) && BlockNo(i) in run[t].owner && run[t].Holds(i)
  {
    RunOk(run, t);
    RunKeeps(run, t0, t);
    RunKeeps(run, t, t4);
    assert run[t].Holds(i);
  }

  lemma TailFound<T(!new)>(run: seq<State<T>>, i: nat, t0: nat, t1: nat, t4: nat) returns (back: nat)
    requires Run(run) && t0 <= t1 <= t4 < |run| && i < run[t0].tailIndex && i !in run[t4].finished
    ensures 0 < |run[t0].indices| <= |run[t1].tails|
    ensures var h := |run[t0].indices| - 1; run[t1].Tracks(h, run[t1].tails[h], BlockNo(i), back)
  {
    StillPending(run, i, t0, t0, t4);
    StillPending(run, i, t0, t1, t4);
    RunKeeps(run, t0, t1);
    CurrentTailReaches(run[t0], BlockNo(i));
    var h := |run[t0].indices| - 1;
    assert run[t1].Reaches(h, BlockNo(i));
    back :| run[t1].Tracks(h, run[t1].tails[h], BlockNo(i), back);
  }

  lemma TrackKept<T(!new)>(run: seq<State<T>>, n: int, t: nat, t': nat, h: nat, f: nat, back: nat)
    requires Run(run) && t <= t' < |run| && run[t].Tracks(h, f, n, back) && n in run[t'].owner
    ensures run[t'].Tracks(h, f, n, back) && run[t'].EntryOf(n) == run[t].EntryOf(n)
    ensures run[t'].owner[n] == run[t].owner[n]
  {
    RunKeeps(run, t, t');
  }

  lemma EntryHoldsBlock<T(!new)>(run: seq<State<T>>, i: nat, t: nat)
    requires Run(run) && t < |run| && BlockNo(i) in run[t].owner
    ensures run[t].ArraysOk() && run[t].EntryOf(BlockNo(i)) < |run[t].entries|
    ensures run[t].Value(BlockNo(i)) == Some(run[t].owner[BlockNo(i)])
  {
    RunOk(run, t);
    assert run[t].OwnedOk(BlockNo(i));
  }

  /** However many blocks are taken and given back and however often the index is replaced in between, a
      consumer that has claimed indices from `first` on, single or bulk, ends at its own element for each of
      them. The entry it holds is the one that must be cleared when the block is given back. */
  lemma LateConsumerFindsItsElement<T(!new)>(run: seq<State<T>>, first: nat, i: nat,
                                             t0: nat, t1: nat, t2: nat, t3: nat, t4: nat, t5: nat)
    returns (e: nat, block: nat)
    requires Run(run) && t0 <= t1 <= t2 <= t3 <= t4 <= t5 < |run| && first <= i
    requires i < run[t0].tailIndex && i !in run[t4].finished
    ensures 0 < |run[t0].indices| <= |run[t1].tails|
    ensures Finds(run, first, i, t0, t1, t2, t3, t4, e, block)
    ensures BlockNo(i) in run[t5].owner ==>
              run[t5].ArraysOk() && run[t5].EntryOf(BlockNo(i)) == e && run[t5].owner[BlockNo(i)] == block
  {
    var n := BlockNo(i);
    var back := TailFound(run, i, t0, t1, t4);
    var h := |run[t0].indices| - 1;
    var f := run[t1].tails[h];
    StillOwned(run, i, t0, t2, t4);
    StillOwned(run, i, t0, t3, t4);
    StillOwned(run, i, t0, t4, t4);
    TrackKept(run, n, t1, t2, h, f, back);
    TrackKept(run, n, t2, t3, h, f, back);
    TrackKept(run, n, t3, t4, h, f, back);
    TrackFinds(run[t2], h, f, first, i, back);
    EntryHoldsBlock(run, i, t3);
    e, block := run[t3].EntryOf(n), run[t3].owner[n];
    ElementThere(run, i, t0, t4);
    if n in run[t5].owner {
      TrackKept(run, n, t4, t5, h, f, back);
    }
  }

  lemma StillOwned<T(!new)>(run: seq<State<T>>, i: nat, t0: nat, t: nat, t4: nat)
    requires Run(run) && t0 <= t <= t4 < |run| && i < run[t0].tailIndex && i !in run[t4].finished
    ensures BlockNo(i) in run[t].owner
  {
    StillPending(run, i, t0, t, t4);
  }

  lemma ElementThere<T(!new)>(run: seq<State<T>>, i: nat, t0: nat, t4: nat)
    requires Run(run) && t0 <= t4 < |run| && i < run[t0].tailIndex && i !in run[t4].finished
    ensures i < |run[t0].items| && run[t4].InUse(BlockNo(i))
    ensures run[t4].blocks[run[t4].owner[BlockNo(i)]].elements[Offset(i)] == Some(run[t0].items[i])
  {
    StillPending(run, i, t0, t4, t4);
    RunOk(run, t0);
    RunKeeps(run, t0, t4);
  }

  /** No block is leaked and none is given back early: once no thread is in the middle of giving one back,
      a block is in use exactly as long as it has an element that is not out. */
  lemma BlocksInUse<T(!new)>(run: seq<State<T>>, k: nat, n: nat)
    requires Run(run) && k < |run| && run[k].stage == Idle && run[k].releasing == {} && n <= run[k].last
    ensures n in run[k].owner <==> exists i: nat :: BlockNo(i) == n && i !in run[k].finished
  {
    RunOk(run, k);
    var s := run[k];
    if n in s.owner {
      assert s.OwnedOk(n);
      if forall i: nat | BlockNo(i) == n :: i in s.finished {
        AllOutOrNot(s, n);
      }
    } else {
      assert s.GoneOk(n);
      forall i: nat | BlockNo(i) == n ensures i in s.finished {
        assert s.Pending(i) ==> s.Holds(i);
      }
    }
  }

  // If all elements of a block are out, 32 are.
  lemma AllOutOrNot<T>(s: State<T>, n: nat)
    requires forall i: nat | BlockNo(i) == n :: i in s.finished
    ensures |s.DoneIn(n)| == 32
  {
    var block := Range(32 * n, 32 * n + 32);
    assert block <= s.DoneIn(n);
    SubsetSize(block, s.DoneIn(n));
    DoneBound(s, n);
  }

  lemma TailIsOwned<T>(s: State<T>)
    requires s.CanAppend()
    ensures s.InUse(s.last) && s.tailBlock == Some(s.owner[s.last])
  {
    assert s.OwnedOk(s.last);
  }

  lemma ElementFound<T>(s: State<T>, i: nat)
    requires s.CanConsume(i)
    ensures s.InUse(BlockNo(i)) && i < |s.items|
    ensures s.blocks[s.owner[BlockNo(i)]].elements[Offset(i)] == Some(s.items[i])
    ensures BlockNo(i) in s.releasing ==> s.blocks[s.owner[BlockNo(i)]].done == 32
    ensures s.blocks[s.owner[BlockNo(i)]].done < 32
  {
    var n := BlockNo(i);
    assert s.Holds(i) && s.OwnedOk(n);
    DoneBound(s, n);
  }

  // What is left for the thread that moved element i out.
  lemma AfterConsume<T>(s: State<T>, i: nat)
    requires s.CanConsume(i)
    ensures s.InUse(BlockNo(i)) && s.Consumed(i).Ok() && s.Consumed(i).ArraysOk()
    ensures s.Consumed(i).EntryOf(BlockNo(i)) == s.EntryOf(BlockNo(i))
    ensures s.Consumed(i).blocks.Keys == s.blocks.Keys && BlockNo(i) !in s.releasing
  {
    ElementFound(s, i);
    ConsumedKeepsOk(s, i);
  }

  // What a consumer computes from the current tail.
  lemma EntryFound<T>(s: State<T>, i: nat)
    requires s.Ok() && s.Pending(i)
    ensures s.InUse(BlockNo(i)) && s.EntryOf(BlockNo(i)) < |s.entries|
    ensures s.entries[s.EntryOf(BlockNo(i))] == Entry(BaseOf(i), Some(s.owner[BlockNo(i)]))
    ensures var c := |s.indices| - 1; var tail := s.tails[c];
            s.indices[c][tail] < |s.entries| &&
            s.EntryOf(BlockNo(i)) ==
              s.indices[c][Wrap(tail + (BaseOf(i) - s.entries[s.indices[c][tail]].key) / 32, |s.indices[c]|)]
  {
    var n := BlockNo(i);
    assert s.Holds(i) && s.OwnedOk(n) && s.Key(n) == 32 * n && s.Key(s.last) == 32 * s.last;
    TailLeadsTo(s, i);
  }

  lemma TailLeadsTo<T>(s: State<T>, i: nat)
    requires s.ArraysOk() && s.Key(s.last) == 32 * s.last
    ensures var c := |s.indices| - 1; var tail := s.tails[c];
            s.indices[c][tail] < |s.entries| &&
            s.EntryOf(BlockNo(i)) ==
              s.indices[c][Wrap(tail + (BaseOf(i) - s.entries[s.indices[c][tail]].key) / 32, |s.indices[c]|)]
  {
    assert BaseOf(i) - s.Key(s.last) == 32 * (BlockNo(i) - s.last);
    WrapMove(s.start + s.last, BlockNo(i) - s.last, |s.Current()|);
  }

  lemma LastRotated(tail: nat, i: nat, size: nat)
    requires 1 <= i <= size && Wrap(tail + i, size) == tail < size
    ensures i == size
  {
    if i < size {
      WrapsDiffer(tail, tail + i, size);
    }
  }

  // The two stores that open the next entry.
  lemma EntryOpens<T(!new)>(s: State<T>)
    requires s.AtEnd() && s.NextFree()
    ensures s.KeyStored().ArraysOk() && s.KeyStored().TailStored().Ok() && Leads(s, s.KeyStored().TailStored())
    ensures s.KeyStored().TailStored().EntryOf(s.last + 1) == s.EntryOf(s.last + 1)
    ensures Wrap(s.tails[|s.tails| - 1] + 1, |s.Current()|) == Wrap(s.start + s.last + 1, |s.Current()|)
  {
    WrapMove(s.start + s.last, 1, |s.Current()|);
    KeyStoredStep(s);
    TailStoredStep(s.KeyStored());
    OneStep(s, s.KeyStored());
    OneStep(s.KeyStored(), s.KeyStored().TailStored());
    LeadsOn(s, s.KeyStored(), s.KeyStored().TailStored());
  }

  lemma AppendedLeads<T(!new)>(s: State<T>, m: State<T>, x: T)
    requires Leads(s, m) && m.CanAppend()
    ensures m.InUse(m.last) && m.last in m.owner && m.tailBlock == Some(m.owner[m.last])
    ensures m.Appended(x).IsReady() && Leads(s, m.Appended(x))
  {
    TailIsOwned(m);
    AppendedStep(m, x);
    OneStep(m, m.Appended(x));
    LeadsOn(s, m, m.Appended(x));
  }

  // The claim of one element, and its moving out.
  lemma FirstIsTaken<T(!new)>(s: State<T>)
    requires CanClaim(s, 1)
    ensures Claimed(s, 1).InUse(BlockNo(s.headIndex))
    ensures Leads(s, Claimed(s, 1).Consumed(s.headIndex))
  {
    var m := Claimed(s, 1);
    ClaimedKeepsOk(s, 1);
    OneStep(s, m);
    assert m.CanConsume(s.headIndex);
    ElementFound(m, s.headIndex);
    OneStep(m, m.Consumed(s.headIndex));
    LeadsOn(s, m, m.Consumed(s.headIndex));
  }

  // ---- The object ----

  class ImplicitProducer<T(!new)> {
    var tailIndex: nat
    var headIndex: nat
    var tailBlock: Option<nat>
    var blocks: map<nat, Block<T>> // the blocks that were requisitioned and not given back
    var entries: seq<Entry> // every entry ever allocated
    var indices: seq<seq<nat>> // the current array is the last; consumers may still use the others
    var tails: seq<nat>

    ghost var stage: Stage
    ghost var releasing: set<int>
    ghost var items: seq<T>
    ghost var finished: set<nat>
    ghost var owner: map<int, nat>
    ghost var last: int
    ghost var filled: nat
    ghost var start: int

    ghost function S(): State<T>
      reads this
    {
      State(tailIndex, headIndex, tailBlock, blocks, entries, indices, tails, stage, releasing,
            items, finished, owner, last, filled, start)
    }

    // The first new_block_index; `junk` has IMPLICIT_INITIAL_INDEX_SIZE values.
    constructor (junk: seq<Option<nat>>)
      requires 2 <= |junk|
      ensures S().Ok() && stage == Idle && items == [] && headIndex == 0 && releasing == {}
    {
      tailIndex, headIndex, tailBlock, blocks := 0, 0, None, map[];
      entries, indices, tails := Unused(junk), [seq(|junk|, k => k)], [|junk| - 1];
      stage, releasing, items, finished, owner := Idle, {}, [], {}, map[];
      last, filled, start := -1, 0, 0;
      new;
      assert S().Inv();
    }

    // The copying loop of new_block_index: from the entry after the tail round to the tail.
    static method RotatedIndex(index: seq<nat>, tail: nat, base: nat) returns (larger: seq<nat>)
      requires tail < |index|
      ensures |larger| == 2 * |index|
      ensures forall k | 0 <= k < |index| :: larger[k] == index[Wrap(tail + 1 + k, |index|)]
      ensures forall k | |index| <= k < |larger| :: larger[k] == base + (k - |index|)
    {
      var size := |index|;
      larger := seq(size, _ => 0) + seq(size, (k: nat) => base + k);
      var pos, i := Wrap(tail + 1, size), 1;
      larger := larger[0 := index[pos]];
      while pos != tail
        invariant 1 <= i <= size && |larger| == 2 * size && pos == Wrap(tail + i, size)
        invariant forall k | 0 <= k < i :: larger[k] == index[Wrap(tail + 1 + k, size)]
        invariant forall k | size <= k < 2 * size :: larger[k] == base + (k - size)
        decreases size - i
      {
        WrapMove(tail, size, size);
        WrapMove(tail + i, 1, size);
        pos := Wrap(pos + 1, size);
        larger := larger[i := index[pos]];
        i := i + 1;
      }
      LastRotated(tail, i, size);
    }

    method NewBlockIndex(junk: seq<Option<nat>>)
      requires S().AtEnd() && !S().NextFree() && |junk| == |S().Current()|
      modifies `entries, `indices, `tails, `start
      ensures S().AtEnd() && S().NextFree() && Leads(old(S()), S())
    {
      ghost var s := S();
      var c := |indices| - 1;
      var index := RotatedIndex(indices[c], tails[c], |entries|);
      assert s.CanGrow(junk, index);
      AdoptIndex(junk, index);
      GrownStep(s, junk, index);
      OneStep(s, S());
    }

    method AdoptIndex(junk: seq<Option<nat>>, index: seq<nat>)
      requires S().ArraysOk()
      modifies `entries, `indices, `tails, `start
      ensures S() == old(S()).Grown(junk, index)
    {
      var c := |indices| - 1;
      entries := entries + Unused(junk);
      tails := tails + [|indices[c]| - 1];
      start := |indices[c]| - 1 - last;
      indices := indices + [index];
    }

    // insert_block_index_entry, once the next entry can be taken over: its key ...
    method StoreKey(newTail: nat) returns (e: nat)
      requires S().ArraysOk() && newTail == Wrap(start + last + 1, |indices[|indices| - 1]|)
      modifies `entries, `stage, `filled
      ensures S() == old(S()).KeyStored() && e == old(S()).EntryOf(last + 1)
    {
      var c := |indices| - 1;
      e := indices[c][newTail];
      entries := entries[e := entries[e].(key := tailIndex)];
      filled := if filled == |indices[c]| then filled - 1 else filled;
      stage := Keyed;
    }

    // ... and the tail.
    method StoreTail(newTail: nat)
      requires S().ArraysOk()
      requires newTail == Wrap(tails[|tails| - 1] + 1, |indices[|indices| - 1]|)
      modifies `tails, `stage, `last, `filled
      ensures S() == old(S()).TailStored()
    {
      tails := tails[|tails| - 1 := newTail];
      last, filled, stage := last + 1, filled + 1, Opened;
    }

    method OpenEntry() returns (e: nat)
      requires S().AtEnd() && S().NextFree()
      modifies `entries, `tails, `stage, `last, `filled
      ensures S().Ok() && stage == Opened && e == S().EntryOf(last) && Leads(old(S()), S())
    {
      EntryOpens(S());
      e := StoreBoth();
    }

    // The next entry becomes the newest one: its key, then the tail.
    method StoreBoth() returns (e: nat)
      requires S().ArraysOk() && S().KeyStored().ArraysOk()
      requires Wrap(tails[|tails| - 1] + 1, |S().Current()|) == Wrap(start + last + 1, |S().Current()|)
      modifies `entries, `tails, `stage, `last, `filled
      ensures S() == old(S()).KeyStored().TailStored() && e == old(S()).EntryOf(last)
    {
      var c := |indices| - 1;
      var newTail := Wrap(tails[c] + 1, |indices[c]|);
      e := StoreKey(newTail);
      StoreTail(newTail);
    }

    method InsertBlockIndexEntry(mayGrow: bool, junk: seq<Option<nat>>) returns (e: Option<nat>)
      requires S().AtEnd() && |junk| == |S().Current()|
      modifies `entries, `indices, `tails, `start, `stage, `last, `filled
      ensures e.Some? <==> old(S().NextFree()) || mayGrow
      ensures e == None ==> S() == old(S())
      ensures e.Some? ==> S().Ok() && stage == Opened && e.value == S().EntryOf(last) && Leads(old(S()), S())
    {
      var c := |indices| - 1;
      WrapMove(start + last, 1, |indices[c]|);
      var next := entries[indices[c][Wrap(tails[c] + 1, |indices[c]|)]];
      NoStep(S());
      if next.key != INVALID_BLOCK_BASE && next.value.Some? {
        if !mayGrow {
          return None;
        }
        NewBlockIndex(junk);
      }
      label grown:
      var at := OpenEntry();
      LeadsOn(old(S()), old@grown(S()), S());
      return Some(at);
    }

    // No block was to be had: rewind_block_index_tail, and the entry is cleared.
    method RewindTail()
      requires S().Ok() && stage == Opened
      modifies `tails, `stage, `last, `filled
      ensures S() == old(S()).Rewound() && S().Ok() && Leads(old(S()), S())
    {
      RewoundStep(S());
      OneStep(S(), S().Rewound());
      var c := |indices| - 1;
      tails := tails[c := Wrap(tails[c] as int - 1, |indices[c]|)];
      last, filled, stage := last - 1, filled - 1, Rewinding;
    }

    method ClearEntry(e: nat)
      requires S().Ok() && stage == Rewinding && e == S().EntryOf(last + 1)
      modifies `entries, `stage
      ensures S() == old(S()).NullStored() && S().AtEnd() && S().NextFree() && Leads(old(S()), S())
    {
      NullStoredStep(S());
      OneStep(S(), S().NullStored());
      entries := entries[e := entries[e].(value := None)];
      stage := Idle;
    }

    method Rewind(e: nat)
      requires S().Ok() && stage == Opened && e == S().EntryOf(last)
      modifies `entries, `tails, `stage, `last, `filled
      ensures S().AtEnd() && S().NextFree() && Leads(old(S()), S())
    {
      RewindTail();
      label rewound:
      ClearEntry(e);
      LeadsOn(old(S()), old@rewound(S()), S());
    }

    method StoreBlock(e: nat, b: nat, block: Block<T>)
      requires S().ArraysOk() && e == S().EntryOf(last)
      modifies `entries, `blocks, `tailBlock, `stage, `owner
      ensures S() == old(S()).ValueStored(b, block)
    {
      blocks := blocks[b := block.(done := 0)];
      entries := entries[e := entries[e].(value := Some(b))];
      tailBlock := Some(b);
      stage := Idle;
      owner := owner[last := b];
    }

    // Whether a block at the end of the current one can be started.
    ghost predicate CanStart(mayGrow: bool, supply: Option<(nat, Block<T>)>)
      requires S().ArraysOk()
      reads this
    {
      (S().NextFree() || mayGrow) && supply.Some?
    }

    method NextBlock(mayGrow: bool, junk: seq<Option<nat>>, supply: Option<(nat, Block<T>)>) returns (ok: bool)
      requires S().AtEnd() && |junk| == |S().Current()|
      requires supply.Some? ==> supply.value.0 !in blocks && WholeBlock(supply.value.1)
      modifies `entries, `indices, `tails, `start, `stage, `last, `filled, `blocks, `tailBlock, `owner
      ensures S().Ok() && Leads(old(S()), S()) && stage == Idle
      ensures ok <==> old(CanStart(mayGrow, supply))
      ensures if ok then S().HasRoom() else S().AtEnd()
    {
      NoStep(S());
      var e := InsertBlockIndexEntry(mayGrow, junk);
      if e == None {
        return false;
      }
      label taken:
      if supply == None {
        Rewind(e.value);
        LeadsOn(old(S()), old@taken(S()), S());
        return false;
      }
      ValueStoredStep(S(), supply.value.0, supply.value.1);
      OneStep(S(), S().ValueStored(supply.value.0, supply.value.1));
      StoreBlock(e.value, supply.value.0, supply.value.1);
      LeadsOn(old(S()), old@taken(S()), S());
      return true;
    }

    method Append(x: T)
      requires S().InUse(last) && tailBlock == Some(owner[last])
      modifies `blocks, `tailIndex, `items
      ensures S() == old(S()).Appended(x)
    {
      var t := tailBlock.value;
      var b := blocks[t];
      blocks := blocks[t := b.(elements := b.elements[Offset(tailIndex) := Some(x)])];
      tailIndex := tailIndex + 1;
      items := items + [x];
    }

    // `mayGrow` and `supply` say whether a larger index and a block can be had.
    method Enqueue(x: T, mayGrow: bool, junk: seq<Option<nat>>, supply: Option<(nat, Block<T>)>) returns (ok: bool)
      requires S().IsReady() && |junk| == |S().Current()|
      requires supply.Some? ==> supply.value.0 !in blocks && WholeBlock(supply.value.1)
      modifies this
      ensures S().IsReady() && Leads(old(S()), S())
      ensures items == (if ok then old(items) + [x] else old(items))
      ensures headIndex == old(headIndex) && finished == old(finished) && releasing == old(releasing)
      ensures ok <==> old(tailIndex) % 32 != 0 || old(CanStart(mayGrow, supply))
    {
      ok := MakeRoom(mayGrow, junk, supply);
      if ok {
        AppendedLeads(old(S()), S(), x);
        Append(x);
      }
    }

    // At the end of a block, another one.
    method MakeRoom(mayGrow: bool, junk: seq<Option<nat>>, supply: Option<(nat, Block<T>)>) returns (ok: bool)
      requires S().IsReady() && |junk| == |S().Current()|
      requires supply.Some? ==> supply.value.0 !in blocks && WholeBlock(supply.value.1)
      modifies `entries, `indices, `tails, `start, `stage, `last, `filled, `blocks, `tailBlock, `owner
      ensures Leads(old(S()), S()) && if ok then S().CanAppend() else S().IsReady()
      ensures ok <==> old(tailIndex) % 32 != 0 || old(CanStart(mayGrow, supply))
    {
      NoStep(S());
      ok := true;
      if tailIndex % 32 == 0 {
        ok := NextBlock(mayGrow, junk, supply);
      }
    }

    // The invariant holds and index i is claimed and not yet moved out.
    ghost predicate Serves(i: nat)
      reads this
    {
      exists s :: s == S() && s.CanConsume(i)
    }

    // get_block_index_index_for_index and the entry it names.
    method EntryForIndex(i: nat) returns (e: nat)
      requires Serves(i)
      ensures S().ArraysOk() && e == S().EntryOf(BlockNo(i)) && e < |entries| && S().InUse(BlockNo(i))
      ensures entries[e] == Entry(BaseOf(i), Some(owner[BlockNo(i)]))
    {
      ghost var s: State<T> :| s == S() && s.CanConsume(i);
      EntryFound(s, i);
      var c := |indices| - 1;
      var tail := tails[c];
      var tailBase := entries[indices[c][tail]].key;
      var offset := (BaseOf(i) - tailBase) / 32;
      e := indices[c][Wrap(tail + offset, |indices[c]|)];
    }

    // A dequeue that nothing interrupts: first in, first out; with the last element of a block the block
    // goes back to the free list.
    method Dequeue() returns (r: Option<T>, freed: Option<nat>)
      requires S().Ok() && releasing == {}
      modifies this
      ensures S().Ok() && releasing == {} && Leads(old(S()), S())
      ensures items == old(items) && tailIndex == old(tailIndex) && stage == old(stage)
      ensures old(headIndex) < tailIndex ==> r == Some(items[old(headIndex)]) && headIndex == old(headIndex) + 1
      ensures old(headIndex) == tailIndex ==> r == None && freed == None && S() == old(S())
      ensures freed.Some? ==> freed.value in old(blocks)
      ensures blocks.Keys == old(blocks).Keys - (if freed == None then {} else {freed.value})
    {
      r, freed := None, None;
      NoStep(S());
      if headIndex < tailIndex {
        ghost var n := BlockNo(headIndex);
        var e, block, x, emptied := TakeFirst();
        r := Some(x);
        if emptied {
          label taken:
          GiveBack(n, e, block);
          LeadsOn(old(S()), old@taken(S()), S());
          freed := Some(block);
        }
      }
    }

    // The first element, out of its block.
    method TakeFirst() returns (e: nat, block: nat, x: T, emptied: bool)
      requires CanClaim(S(), 1) && releasing == {}
      modifies `headIndex, `blocks, `releasing, `finished
      ensures S().Ok() && Leads(old(S()), S())
      ensures headIndex == old(headIndex) + 1 && old(headIndex) < |items| && x == items[old(headIndex)]
      ensures block in old(blocks) && blocks.Keys == old(blocks).Keys
      ensures var n := BlockNo(old(headIndex));
              && S().ArraysOk() && e == S().EntryOf(n) && n in owner && block == owner[n]
              && releasing == (if emptied then {n} else {})
    {
      FirstIsTaken(S());
      var i := Claim();
      e, block, x, emptied := TakeOut(i);
    }

    method Claim() returns (i: nat)
      requires CanClaim(S(), 1)
      modifies `headIndex
      ensures i == old(headIndex) && S() == Claimed(old(S()), 1) && Serves(i)
    {
      ghost var s := S();
      i := headIndex;
      headIndex := headIndex + 1;
      ClaimedKeepsOk(s, 1);
      assert S() == Claimed(s, 1);
      assert S().CanConsume(i);
    }

    // The claimed element, found and moved out.
    method TakeOut(i: nat) returns (e: nat, block: nat, x: T, emptied: bool)
      requires Serves(i)
      modifies `blocks, `releasing, `finished
      ensures old(S().ArraysOk() && S().InUse(BlockNo(i))) && S() == old(S()).Consumed(i) && S().Ok()
      ensures S().ArraysOk() && e == S().EntryOf(BlockNo(i)) && BlockNo(i) in owner && block == owner[BlockNo(i)]
      ensures block in old(blocks) && blocks.Keys == old(blocks).Keys
      ensures i < |items| && x == items[i]
      ensures emptied <==> BlockNo(i) in releasing
      ensures releasing == old(releasing) + (if emptied then {BlockNo(i)} else {})
    {
      ghost var s: State<T> :| s == S() && s.CanConsume(i);
      AfterConsume(s, i);
      ElementFound(s, i);
      e := EntryForIndex(i);
      block := entries[e].value.value;
      x, emptied := MoveOut(i, block);
    }

    // The element is moved out and counted.
    method MoveOut(i: nat, block: nat) returns (x: T, emptied: bool)
      requires S().InUse(BlockNo(i)) && block == owner[BlockNo(i)] && blocks[block].elements[Offset(i)].Some?
      modifies `blocks, `releasing, `finished
      ensures S() == old(S()).Consumed(i) && x == old(blocks)[block].elements[Offset(i)].value
      ensures emptied <==> old(blocks)[block].done == 31
      ensures releasing == old(releasing) + (if emptied then {BlockNo(i)} else {})
    {
      var b := blocks[block];
      x := b.elements[Offset(i)].value;
      emptied := b.done + 1 == 32;
      blocks := blocks[block := b.(elements := b.elements[Offset(i) := None], done := b.done + 1)];
      releasing := if emptied then releasing + {BlockNo(i)} else releasing;
      finished := finished + {i};
    }

    // The entry is cleared and the block added to the free list.
    method GiveBack(ghost n: int, e: nat, block: nat)
      requires S().CanRelease(n) && S().ArraysOk() && e == S().EntryOf(n) && n in owner && block == owner[n]
      modifies `entries, `blocks, `releasing, `owner
      ensures S() == old(S()).Released(n) && S().Ok() && Leads(old(S()), S())
    {
      ReleasedKeepsOk(S(), n);
      OneStep(S(), S().Released(n));
      entries := entries[e := entries[e].(value := None)];
      blocks := blocks - {block};
      releasing := releasing - {n};
      owner := owner - {n};
    }
  }
}
