/** The explicit producer's storage: fixed-size blocks linked in a ring, reused when empty, and a
    circular index of (base, block) entries that grows by doubling.

    One producer enqueues. Consumers, which have claimed an index (see Tickets), find its block
    through an index array, a front and an entry that they load at different moments, while the
    producer goes on. `State` is everything the producer object holds, `Next` is one step of any
    thread, and the class ExplicitProducer does the steps on its own fields.
 */
module BlockRing {
  import opened Common
  import opened Modular
  import opened Blocks

  datatype Entry = Entry(base: nat, block: nat)

  // `emptyFlags` is indexed from the far end, as in the source.
  datatype Block<T> = Block(elements: seq<Option<T>>, emptyFlags: seq<bool>, next: nat)

  predicate WholeBlock<T>(b: Block<T>) {
    |b.elements| == 32 && |b.emptyFlags| == 32
  }

  // `is_empty`: every flag is set.
  predicate IsEmpty<T>(b: Block<T>) {
    forall f | 0 <= f < |b.emptyFlags| :: b.emptyFlags[f]
  }

  function ResetEmpty<T>(b: Block<T>): Block<T> {
    b.(emptyFlags := seq(32, _ => false))
  }

  // The copying loop of new_block_index: the n entries that end before slot `front`.
  method CopyEntries(entries: seq<Entry>, n: nat, front: nat, ghost from: nat) returns (copy: seq<Entry>)
    requires 0 < |entries| && n <= |entries| && Wrap(front - n, |entries|) == Wrap(from, |entries|)
    ensures |copy| == 2 * |entries|
    ensures forall k | 0 <= k < n :: copy[k] == entries[Wrap(from + k, |entries|)]
  {
    var size := |entries|;
    copy := seq(2 * size, _ => Entry(0, 0));
    var j, i := 0, Wrap(front - n, size);
    while j < n
      invariant 0 <= j <= n && |copy| == 2 * size
      invariant i == Wrap(from + j, size)
      invariant forall k | 0 <= k < j :: copy[k] == entries[Wrap(from + k, size)]
    {
      copy := copy[j := entries[i]];
      WrapMove(from + j, 1, size);
      i := Wrap(i + 1, size);
      j := j + 1;
    }
  }

  // What the producer object holds. The last fields are for the specification only: what was ever
  // enqueued, the indices already moved out, the ring from its oldest block to the tail block, the tail
  // block's number, indexFront before its reduction to a slot, and whether the producer is about to
  // publish the tail block's entry.
  datatype State<T> = State(
    tailIndex: nat, headIndex: nat, tailBlock: Option<nat>, blocks: seq<Block<T>>,
    slotsUsed: nat, indexFront: nat, indices: seq<seq<Entry>>, fronts: seq<int>,
    items: seq<T>, finished: set<nat>, ring: seq<nat>, last: nat, written: nat, open: bool)
  {
    ghost function Current(): seq<Entry>
      requires |indices| > 0
    {
      indices[|indices| - 1]
    }

    // The position in the ring of the block that index i belongs to.
    ghost function Position(i: nat): int { |ring| - 1 - (last - BlockNo(i)) }

    ghost predicate InRing(i: nat) { 0 <= Position(i) < |ring| }

    ghost function Owner(i: nat): nat
      requires InRing(i)
    {
      ring[Position(i)]
    }

    // The circular linked list is `ring`, and it ends at the tail block.
    ghost predicate RingOk() {
      && (forall b | 0 <= b < |blocks| :: WholeBlock(blocks[b]))
      && (forall k | 0 <= k < |ring| :: ring[k] < |blocks|)
      && (forall k, k' | 0 <= k < k' < |ring| :: ring[k] != ring[k'])
      && (forall k | 0 <= k < |ring| - 1 :: blocks[ring[k]].next == ring[k + 1])
      && (ring != [] ==> blocks[ring[|ring| - 1]].next == ring[0])
      && tailBlock == (if ring == [] then None else Some(ring[|ring| - 1]))
      && (ring != [] ==> |ring| - 1 <= last)
    }

    // The entry of the ring's k-th block: its base and its name.
    ghost predicate Names(e: Entry, k: nat)
      requires k < |ring|
    {
      e.base == 32 * (last - (|ring| - 1 - k)) && e.block == ring[k]
    }

    // How many of the ring's blocks, from the oldest on, are in the published part of the index.
    ghost function Published(): int { |ring| - (if open then 1 else 0) }

    ghost predicate EntryOk(k: nat)
      requires 0 < |indices| && 0 < |Current()| && k < |ring|
    {
      Names(Current()[Wrap(written - Published() + k, |Current()|)], k)
    }

    // The last entries of the index are the ring's blocks, with consecutive bases; the tail block may still
    // be without one.
    ghost predicate IndexOk() {
      && 0 < |indices| == |fronts|
      && (forall h | 0 <= h < |indices| :: 0 < |indices[h]|)
      && slotsUsed == |ring| <= |Current()|
      && 0 <= Published() <= written
      && indexFront == Wrap(written, |Current()|)
      && (forall k | 0 <= k < Published() :: EntryOk(k))
      && (0 < Published() ==> fronts[|fronts| - 1] == Wrap(written - 1, |Current()|))
    }

    // What the cell of index i holds.
    ghost predicate CellOk(block: Block<T>, i: nat)
      requires WholeBlock(block) && tailIndex == |items|
    {
      if i < tailIndex then
        && (i in finished <==> block.emptyFlags[31 - Offset(i)])
        && (i !in finished ==> block.elements[Offset(i)] == Some(items[i]))
      else !block.emptyFlags[31 - Offset(i)]
    }

    ghost predicate CellsOk()
      requires RingOk() && tailIndex == |items|
    {
      forall i: nat | InRing(i) :: CellOk(blocks[Owner(i)], i)
    }

    // Only claimed elements are moved out, and only finished elements have left the ring.
    ghost predicate ItemsOk() {
      && headIndex <= tailIndex == |items|
      && (forall i | i in finished :: i < headIndex)
      && (forall i: nat | i < tailIndex && !InRing(i) :: i in finished)
    }

    // The tail is in the tail block or at its end.
    ghost predicate TailOk() {
      && (ring == [] ==> tailIndex == 0)
      && (ring != [] ==> 32 * last <= tailIndex <= 32 * last + 32)
      && (open ==> ring != [] && tailIndex == 32 * last)
    }

    ghost predicate Ok() {
      RingOk() && IndexOk() && ItemsOk() && TailOk() && CellsOk()
    }

    // The tail block has room for the next element.
    ghost predicate HasRoom() { ring != [] && !open && tailIndex < 32 * last + 32 }

    // Between two enqueues a fresh tail block never waits empty.
    ghost predicate Ready() { !open && (tailIndex % 32 == 0 ==> !HasRoom()) }

    // An element that is in the queue, or claimed but not yet moved out.
    ghost predicate Pending(i: nat) { i < tailIndex && i !in finished }

    // A consumer that holds index array h and the front f finds the entry of i's block `back`
    // slots before f. In the current array these slots are still among the last ones written.
    ghost predicate Tracks(h: nat, f: int, i: nat, back: nat) {
      && Pending(i) && InRing(i) && h < |indices| && 0 <= f < |indices[h]| && back < |indices[h]|
      && indices[h][f].base == 32 * (BlockNo(i) + back)
      && indices[h][Wrap(f - back, |indices[h]|)].block == Owner(i)
      && (h == |indices| - 1 ==>
            Position(i) + back < Published() && f == Wrap(written - Published() + Position(i) + back, |indices[h]|))
    }

    // The front that array h publishes now can be used to find i's block.
    ghost predicate Reaches(h: nat, i: nat) {
      h < |fronts| && exists back: nat :: Tracks(h, fronts[h], i, back)
    }

    // ---- The steps ----

    // At the end of the tail block the next one becomes the tail block, if it is empty.
    ghost predicate CanReuse() {
      Ok() && !open && ring != [] && tailIndex == 32 * last + 32 && IsEmpty(blocks[ring[0]])
    }

    ghost function Rotated(): State<T>
      requires CanReuse()
    {
      this.(tailBlock := Some(ring[0]),
            blocks := blocks[ring[0] := ResetEmpty(blocks[ring[0]])],
            ring := ring[1..] + [ring[0]],
            last := last + 1, open := true)
    }

    // Or a requisitioned block is linked in after the tail block.
    ghost predicate CanInsert(b: Block<T>) {
      Ok() && !open && WholeBlock(b) && !HasRoom() && |ring| < |Current()|
    }

    ghost function Linked(b: Block<T>): State<T>
      requires ring != [] ==> ring[|ring| - 1] < |blocks|
    {
      var id := |blocks|;
      var b' := ResetEmpty(b).(next := if ring == [] then id else ring[0]);
      var linked := if ring == [] then blocks
                    else blocks[ring[|ring| - 1] := blocks[ring[|ring| - 1]].(next := id)];
      this.(tailBlock := Some(id), blocks := linked + [b'], slotsUsed := slotsUsed + 1,
            ring := ring + [id], last := if ring == [] then 0 else last + 1, open := true)
    }

    // Then the next entry of the index is written, base and block, ...
    ghost predicate CanWrite() { Ok() && open }

    ghost function EntrySet(e: Entry): State<T>
      requires 0 < |indices| && indexFront < |Current()|
    {
      this.(indices := indices[|indices| - 1 := Current()[indexFront := e]])
    }

    ghost function BaseStored(): State<T>
      requires 0 < |indices| && indexFront < |Current()|
    {
      EntrySet(Current()[indexFront].(base := tailIndex))
    }

    ghost function BlockStored(): State<T>
      requires 0 < |indices| && indexFront < |Current()| && tailBlock.Some?
    {
      EntrySet(Current()[indexFront].(block := tailBlock.value))
    }

    // ... and the front published.
    ghost predicate CanPublish() {
      Ok() && open && tailBlock.Some? && Current()[indexFront] == Entry(tailIndex, tailBlock.value)
    }

    ghost function FrontStored(): State<T>
      requires 0 < |indices| == |fronts| && 0 < |Current()|
    {
      this.(fronts := fronts[|fronts| - 1 := indexFront], indexFront := Wrap(indexFront + 1, |Current()|),
            written := written + 1, open := false)
    }

    // A larger index array that starts with the live entries.
    ghost predicate CanGrow(entries: seq<Entry>) {
      && Ok() && !open && |ring| < |entries|
      && (forall k | 0 <= k < |ring| :: Names(entries[k], k))
    }

    ghost function Grown(entries: seq<Entry>): State<T>
      requires CanGrow(entries)
    {
      this.(indices := indices + [entries], fronts := fronts + [slotsUsed - 1],
            indexFront := slotsUsed, written := slotsUsed)
    }

    // The element is constructed in the tail block and the tail published.
    ghost function Appended(x: T): State<T>
      requires Ok() && HasRoom()
    {
      var t := ring[|ring| - 1];
      var b := blocks[t];
      this.(blocks := blocks[t := b.(elements := b.elements[Offset(tailIndex) := Some(x)])],
            tailIndex := tailIndex + 1, items := items + [x])
    }

    // The claimed element is moved out and its flag set.
    ghost predicate CanConsume(i: nat) { Ok() && Pending(i) && i < headIndex }

    ghost function Consumed(i: nat): State<T>
      requires CanConsume(i)
    {
      var b := blocks[Owner(i)];
      this.(blocks := blocks[Owner(i) := b.(elements := b.elements[Offset(i) := None],
                                            emptyFlags := b.emptyFlags[31 - Offset(i) := true])],
            finished := finished + {i})
    }
  }

  // The steps of the producer that change the ring or the index.
  ghost predicate IndexStep<T(!new)>(s: State<T>, s': State<T>) {
    || (s.CanReuse() && s' == s.Rotated())
    || (exists b :: s.CanInsert(b) && s' == s.Linked(b))
    || (s.CanWrite() && s' == s.BaseStored())
    || (s.CanWrite() && s' == s.BlockStored())
    || (s.CanPublish() && s' == s.FrontStored())
    || (exists entries :: s.CanGrow(entries) && s' == s.Grown(entries))
  }

  // Elements put in, claimed and moved out.
  ghost predicate ElementStep<T(!new)>(s: State<T>, s': State<T>) {
    || (exists x :: s.Ok() && s.HasRoom() && s' == s.Appended(x))
    || (s.Ok() && s.headIndex < s.tailIndex && s' == s.(headIndex := s.headIndex + 1))
    || (exists i :: s.CanConsume(i) && s' == s.Consumed(i))
  }

  // One step of the producer or of a consumer.
  ghost predicate Next<T(!new)>(s: State<T>, s': State<T>) {
    IndexStep(s, s') || ElementStep(s, s')
  }

  ghost predicate SameOwner<T>(s: State<T>, s': State<T>, i: nat) {
    s.InRing(i) && s'.InRing(i) && s'.Owner(i) == s.Owner(i)
  }

  // What every step leaves to the consumers that are under way.
  ghost predicate Kept<T>(s: State<T>, s': State<T>) {
    && s.items <= s'.items && s.finished <= s'.finished
    && s.headIndex <= s'.headIndex && s.tailIndex <= s'.tailIndex
    && |s.indices| <= |s'.indices|
    && (forall h, f, i, back | s.Tracks(h, f, i, back) && s'.Pending(i) :: s'.Tracks(h, f, i, back))
    && (forall h, i | s.Reaches(h, i) && s'.Pending(i) :: s'.Reaches(h, i))
    && (forall i: nat | s.Pending(i) && s'.Pending(i) :: SameOwner(s, s', i))
  }

  // ---- Each step keeps the invariant and the consumers' way to their blocks ----

  // A consumer that loads the current array's front now will find its block.
  lemma CurrentFrontReaches<T>(s: State<T>, i: nat)
    requires s.Ok() && s.Pending(i)
    ensures s.Reaches(|s.indices| - 1, i)
  {
    var back: int := s.Published() - 1 - s.Position(i);
    assert s.EntryOk(s.Published() - 1) && s.EntryOk(s.Position(i));
    WrapMove(s.written - 1, -back, |s.Current()|);
    assert s.Tracks(|s.indices| - 1, s.fronts[|s.indices| - 1], i, back);
  }

  lemma FrontsKept<T>(s: State<T>, s': State<T>)
    requires s'.Ok() && |s.fronts| <= |s'.fronts| && s.finished <= s'.finished
    requires forall h | 0 <= h < |s.fronts| && h < |s'.fronts| - 1 :: s'.fronts[h] == s.fronts[h]
    requires forall h, f, i, back | s.Tracks(h, f, i, back) && s'.Pending(i) :: s'.Tracks(h, f, i, back)
    ensures forall h, i | s.Reaches(h, i) && s'.Pending(i) :: s'.Reaches(h, i)
  {
    forall h: nat, i: nat | s.Reaches(h, i) && s'.Pending(i) ensures s'.Reaches(h, i) {
      if h == |s'.indices| - 1 {
        CurrentFrontReaches(s', i);
      } else {
        var back: nat :| s.Tracks(h, s.fronts[h], i, back);
        assert s'.Tracks(h, s'.fronts[h], i, back);
      }
    }
  }

  // The block that is reused holds no pending element.
  lemma OldestIsFinished<T>(s: State<T>, i: nat)
    requires s.CanReuse() && s.Pending(i)
    ensures 0 < s.Position(i)
  {
    assert s.InRing(i) && s.CellOk(s.blocks[s.Owner(i)], i);
  }

  lemma RotatedRing<T>(s: State<T>)
    requires s.CanReuse()
    ensures s.Rotated().RingOk() && s.Rotated().TailOk()
  {
    assert |s.Rotated().ring| > 0;
  }

  lemma RotatedIndex<T>(s: State<T>)
    requires s.CanReuse()
    ensures s.Rotated().IndexOk()
  {
    var s' := s.Rotated();
    forall k | 0 <= k < s'.Published() ensures s'.EntryOk(k) {
      assert s.EntryOk(k + 1);
    }
  }

  lemma RotatedCells<T>(s: State<T>)
    requires s.CanReuse() && s.Rotated().RingOk()
    ensures s.Rotated().CellsOk() && s.Rotated().ItemsOk()
  {
    var s' := s.Rotated();
    forall i: nat | s'.InRing(i) ensures s'.CellOk(s'.blocks[s'.Owner(i)], i) {
      if BlockNo(i) < s'.last {
        assert s.InRing(i) && s.CellOk(s.blocks[s.Owner(i)], i);
      }
    }
    forall i: nat | i < s'.tailIndex && !s'.InRing(i) ensures i in s'.finished {
      if s.InRing(i) {
        assert s.CellOk(s.blocks[s.Owner(i)], i);
      }
    }
  }

  lemma ReuseStep<T>(s: State<T>)
    requires s.CanReuse()
    ensures s.Rotated().Ok() && Kept(s, s.Rotated())
  {
    var s' := s.Rotated();
    RotatedRing(s);
    RotatedIndex(s);
    RotatedCells(s);
    forall h, f, i, back | s.Tracks(h, f, i, back) && s'.Pending(i) ensures s'.Tracks(h, f, i, back) {
      OldestIsFinished(s, i);
    }
    FrontsKept(s, s');
  }

  // The new block comes after the tail block and before the oldest one.
  lemma LinkedNext<T>(s: State<T>, b: Block<T>)
    requires s.CanInsert(b)
    ensures var s' := s.Linked(b);
            && (forall k | 0 <= k < |s'.ring| :: s'.ring[k] < |s'.blocks|)
            && (forall k, k' | 0 <= k < k' < |s'.ring| :: s'.ring[k] != s'.ring[k'])
            && (forall k | 0 <= k < |s'.ring| - 1 :: s'.blocks[s'.ring[k]].next == s'.ring[k + 1])
            && s'.blocks[s'.ring[|s'.ring| - 1]].next == s'.ring[0]
  {
  }

  lemma LinkedRing<T>(s: State<T>, b: Block<T>)
    requires s.CanInsert(b)
    ensures s.Linked(b).RingOk() && s.Linked(b).TailOk()
  {
    LinkedNext(s, b);
  }

  lemma LinkedIndex<T>(s: State<T>, b: Block<T>)
    requires s.CanInsert(b)
    ensures s.Linked(b).IndexOk()
  {
    var s' := s.Linked(b);
    forall k | 0 <= k < s'.Published() ensures s'.EntryOk(k) {
      assert s.EntryOk(k);
    }
  }

  lemma LinkedCells<T>(s: State<T>, b: Block<T>)
    requires s.CanInsert(b) && s.Linked(b).RingOk()
    ensures s.Linked(b).CellsOk() && s.Linked(b).ItemsOk()
  {
    var s' := s.Linked(b);
    forall i: nat | s'.InRing(i) ensures s'.CellOk(s'.blocks[s'.Owner(i)], i) {
      if BlockNo(i) < s'.last {
        assert s.InRing(i) && s.CellOk(s.blocks[s.Owner(i)], i);
      }
    }
  }

  lemma InsertStep<T>(s: State<T>, b: Block<T>)
    requires s.CanInsert(b)
    ensures s.Linked(b).Ok() && Kept(s, s.Linked(b))
  {
    LinkedRing(s, b);
    LinkedIndex(s, b);
    LinkedCells(s, b);
    FrontsKept(s, s.Linked(b));
  }

  // The slot to write is none of those that consumers rely on.
  lemma SlotIsFree<T>(s: State<T>, n: int)
    requires s.CanWrite() && s.written - s.Published() <= n < s.written
    ensures Wrap(n, |s.Current()|) != s.indexFront
  {
    WrapsDiffer(n, s.written, |s.Current()|);
  }

  lemma EntrySetKeepsOk<T>(s: State<T>, e: Entry)
    requires s.CanWrite()
    ensures s.EntrySet(e).Ok()
  {
    var s' := s.EntrySet(e);
    forall k | 0 <= k < s.Published() ensures s'.EntryOk(k) {
      assert s.EntryOk(k);
      SlotIsFree(s, s.written - s.Published() + k);
    }
    forall i: nat | s'.InRing(i) ensures s'.CellOk(s'.blocks[s'.Owner(i)], i) {
      assert s.InRing(i) && s.CellOk(s.blocks[s.Owner(i)], i);
    }
  }

  lemma EntrySetKeepsTrack<T>(s: State<T>, e: Entry, h: nat, f: int, i: nat, back: nat)
    requires s.CanWrite() && s.Tracks(h, f, i, back)
    ensures s.EntrySet(e).Tracks(h, f, i, back)
  {
    if h == |s.indices| - 1 {
      TrackedSlots(s, f, i, back);
    }
  }

  lemma TrackedSlots<T>(s: State<T>, f: int, i: nat, back: nat)
    requires s.CanWrite() && s.Tracks(|s.indices| - 1, f, i, back)
    ensures f != s.indexFront && Wrap(f - back, |s.Current()|) != s.indexFront
  {
    var n: int := s.written - s.Published() + s.Position(i) + back;
    WrapMove(n, 0 - back, |s.Current()|);
    SlotIsFree(s, n);
    SlotIsFree(s, n - back);
  }

  lemma WriteStep<T>(s: State<T>, e: Entry)
    requires s.CanWrite()
    ensures s.EntrySet(e).Ok() && Kept(s, s.EntrySet(e))
  {
    var s' := s.EntrySet(e);
    EntrySetKeepsOk(s, e);
    forall h, f, i, back | s.Tracks(h, f, i, back) && s'.Pending(i) ensures s'.Tracks(h, f, i, back) {
      EntrySetKeepsTrack(s, e, h, f, i, back);
    }
    FrontsKept(s, s');
  }

  lemma PublishKeepsOk<T>(s: State<T>)
    requires s.CanPublish()
    ensures s.FrontStored().Ok()
  {
    var s' := s.FrontStored();
    WrapMove(s.written, 1, |s.Current()|);
    forall k | 0 <= k < |s.ring| ensures s'.EntryOk(k) {
      if k < |s.ring| - 1 {
        assert s.EntryOk(k);
      }
    }
    forall i: nat | s'.InRing(i) ensures s'.CellOk(s'.blocks[s'.Owner(i)], i) {
      assert s.InRing(i) && s.CellOk(s.blocks[s.Owner(i)], i);
    }
  }

  lemma PublishStep<T>(s: State<T>)
    requires s.CanPublish()
    ensures s.FrontStored().Ok() && Kept(s, s.FrontStored()) && s.FrontStored().HasRoom()
  {
    PublishKeepsOk(s);
    FrontsKept(s, s.FrontStored());
  }

  lemma IndexFrame<T>(s: State<T>, s': State<T>)
    requires s.IndexOk() && s'.indices == s.indices && s'.fronts == s.fronts && s'.indexFront == s.indexFront
    requires s'.written == s.written && s'.ring == s.ring && s'.last == s.last && s'.slotsUsed == s.slotsUsed
    requires s'.open == s.open
    ensures s'.IndexOk()
  {
    forall k | 0 <= k < s.Published() ensures s'.EntryOk(k) {
      assert s.EntryOk(k);
    }
  }

  lemma CopyIsLive<T>(s: State<T>, entries: seq<Entry>)
    requires s.Ok() && !s.open && |entries| == 2 * |s.Current()|
    requires forall k | 0 <= k < |s.ring| :: entries[k] == s.Current()[Wrap(s.written - |s.ring| + k, |s.Current()|)]
    ensures s.CanGrow(entries)
  {
    forall k | 0 <= k < |s.ring| ensures s.Names(entries[k], k) {
      assert s.EntryOk(k);
    }
  }

  lemma GrowKeepsOk<T>(s: State<T>, entries: seq<Entry>)
    requires s.CanGrow(entries)
    ensures s.Grown(entries).Ok()
  {
    var s' := s.Grown(entries);
    forall k | 0 <= k < |s.ring| ensures s'.EntryOk(k) {
      assert s.Names(entries[k], k);
    }
    forall i: nat | s'.InRing(i) ensures s'.CellOk(s'.blocks[s'.Owner(i)], i) {
      assert s.InRing(i) && s.CellOk(s.blocks[s.Owner(i)], i);
    }
  }

  lemma GrowStep<T>(s: State<T>, entries: seq<Entry>)
    requires s.CanGrow(entries)
    ensures s.Grown(entries).Ok() && Kept(s, s.Grown(entries))
  {
    GrowKeepsOk(s, entries);
    FrontsKept(s, s.Grown(entries));
  }

  lemma AppendKeepsOk<T>(s: State<T>, x: T)
    requires s.Ok() && s.HasRoom()
    ensures s.Appended(x).Ok()
  {
    var s' := s.Appended(x);
    IndexFrame(s, s');
    forall i: nat | s'.InRing(i) ensures s'.CellOk(s'.blocks[s'.Owner(i)], i) {
      assert s.InRing(i) && s.CellOk(s.blocks[s.Owner(i)], i);
    }
  }

  lemma AppendStep<T>(s: State<T>, x: T)
    requires s.Ok() && s.HasRoom()
    ensures s.Appended(x).Ok() && Kept(s, s.Appended(x)) && s.Appended(x).Ready()
  {
    AppendKeepsOk(s, x);
    FrontsKept(s, s.Appended(x));
  }

  lemma ClaimKeepsOk<T>(s: State<T>)
    requires s.Ok() && s.headIndex < s.tailIndex
    ensures s.(headIndex := s.headIndex + 1).Ok()
  {
    var s' := s.(headIndex := s.headIndex + 1);
    IndexFrame(s, s');
    forall i: nat | s'.InRing(i) ensures s'.CellOk(s'.blocks[s'.Owner(i)], i) {
      assert s.InRing(i) && s.CellOk(s.blocks[s.Owner(i)], i);
    }
  }

  lemma ClaimStep<T>(s: State<T>)
    requires s.Ok() && s.headIndex < s.tailIndex
    ensures s.(headIndex := s.headIndex + 1).Ok() && Kept(s, s.(headIndex := s.headIndex + 1))
  {
    ClaimKeepsOk(s);
    FrontsKept(s, s.(headIndex := s.headIndex + 1));
  }

  lemma ConsumeKeepsOk<T>(s: State<T>, i: nat)
    requires s.CanConsume(i)
    ensures s.Consumed(i).Ok()
  {
    var s' := s.Consumed(i);
    IndexFrame(s, s');
    forall j: nat | s'.InRing(j) ensures s'.CellOk(s'.blocks[s'.Owner(j)], j) {
      assert s.InRing(j) && s.CellOk(s.blocks[s.Owner(j)], j);
    }
  }

  lemma ConsumeStep<T>(s: State<T>, i: nat)
    requires s.CanConsume(i)
    ensures s.Consumed(i).Ok() && Kept(s, s.Consumed(i))
  {
    ConsumeKeepsOk(s, i);
    FrontsKept(s, s.Consumed(i));
  }

  lemma IndexStepKeeps<T(!new)>(s: State<T>, s': State<T>)
    requires IndexStep(s, s')
    ensures s'.Ok() && Kept(s, s')
  {
    if s.CanReuse() && s' == s.Rotated() {
      ReuseStep(s);
    } else if b :| s.CanInsert(b) && s' == s.Linked(b) {
      InsertStep(s, b);
    } else if s.CanWrite() && s' == s.BaseStored() {
      WriteStep(s, s.Current()[s.indexFront].(base := s.tailIndex));
    } else if s.CanWrite() && s' == s.BlockStored() {
      WriteStep(s, s.Current()[s.indexFront].(block := s.tailBlock.value));
    } else if s.CanPublish() && s' == s.FrontStored() {
      PublishStep(s);
    } else {
      var entries :| s.CanGrow(entries) && s' == s.Grown(entries);
      GrowStep(s, entries);
    }
  }

  lemma StepKeeps<T(!new)>(s: State<T>, s': State<T>)
    requires Next(s, s')
    ensures s'.Ok() && Kept(s, s')
  {
    if IndexStep(s, s') {
      IndexStepKeeps(s, s');
    } else if x :| s.Ok() && s.HasRoom() && s' == s.Appended(x) {
      AppendStep(s, x);
    } else if s.Ok() && s.headIndex < s.tailIndex && s' == s.(headIndex := s.headIndex + 1) {
      ClaimStep(s);
    } else {
      var i :| s.CanConsume(i) && s' == s.Consumed(i);
      ConsumeStep(s, i);
    }
  }

  // ---- Whole runs ----

  ghost predicate StepAt<T(!new)>(run: seq<State<T>>, k: nat)
    requires k + 1 < |run|
  {
    Next(run[k], run[k + 1])
  }

  ghost predicate Run<T(!new)>(run: seq<State<T>>) {
    |run| > 0 && run[0].Ok() && forall k | 0 <= k < |run| - 1 :: StepAt(run, k)
  }

  lemma KeptIsTransitive<T>(s: State<T>, m: State<T>, s': State<T>)
    requires Kept(s, m) && Kept(m, s')
    ensures Kept(s, s')
  {
    assert forall i | s.Pending(i) && s'.Pending(i) :: m.Pending(i);
    forall h: nat, i: nat | s.Reaches(h, i) && s'.Pending(i) ensures s'.Reaches(h, i) {
      assert s.Pending(i);
    }
  }

  lemma RunStep<T(!new)>(run: seq<State<T>>, k: nat)
    requires Run(run) && k + 1 < |run|
    ensures run[k + 1].Ok() && Kept(run[k], run[k + 1])
  {
    assert StepAt(run, k);
    StepKeeps(run[k], run[k + 1]);
  }

  lemma {:induction false} RunKeeps<T(!new)>(run: seq<State<T>>, a: nat, b: nat)
    requires Run(run) && a <= b < |run|
    ensures run[b].Ok() && Kept(run[a], run[b])
    decreases b - a
  {
    if a < b {
      RunKeeps(run, a, b - 1);
      RunStep(run, b - 1);
      KeptIsTransitive(run[a], run[b - 1], run[b]);
    } else if b > 0 {
      RunStep(run, b - 1);
    }
  }

  // The steps of `run` lead from s to s'.
  ghost predicate Path<T(!new)>(run: seq<State<T>>, s: State<T>, s': State<T>) {
    && |run| > 0 && run[0] == s && run[|run| - 1] == s'
    && forall k | 0 <= k < |run| - 1 :: StepAt(run, k)
  }

  ghost predicate Leads<T(!new)>(s: State<T>, s': State<T>) {
    exists run :: Path(run, s, s')
  }

  lemma NoStep<T(!new)>(s: State<T>)
    ensures Leads(s, s)
  {
    assert Path([s], s, s);
  }

  lemma OneStep<T(!new)>(s: State<T>, s': State<T>)
    requires Next(s, s')
    ensures Leads(s, s')
  {
    var run := [s, s'];
    assert StepAt(run, 0);
    assert Path(run, s, s');
  }

  lemma LeadsOn<T(!new)>(s: State<T>, m: State<T>, s': State<T>)
    requires Leads(s, m) && Leads(m, s')
    ensures Leads(s, s')
  {
    var a: seq<State<T>> :| Path(a, s, m);
    var b: seq<State<T>> :| Path(b, m, s');
    var run := a + b[1..];
    forall k | 0 <= k < |run| - 1 ensures StepAt(run, k) {
      if k < |a| - 1 {
        assert StepAt(a, k);
      } else {
        assert StepAt(b, k - |a| + 1) && run[k] == b[k - |a| + 1] && run[k + 1] == b[k - |a| + 2];
      }
    }
    assert Path(run, s, s');
  }

  // Whatever the producer and undisturbed consumers do, late consumers find their way.
  lemma LeadsKeeps<T(!new)>(s: State<T>, s': State<T>)
    requires s.Ok() && Leads(s, s')
    ensures s'.Ok() && Kept(s, s')
  {
    var run: seq<State<T>> :| Path(run, s, s');
    assert Run(run);
    RunKeeps(run, 0, |run| - 1);
  }

  // With front f of array h and the base read in state s, a consumer that claimed the indices from
  // `first` on reads the entry for index i: it computes the slot of the first block and walks on to
  // the block of i. (dequeue has i == first.)
  ghost predicate FindsBlock<T>(s: State<T>, s': State<T>, h: nat, f: int, first: nat, i: nat, block: nat) {
    && h < |s.indices| && 0 <= f < |s.indices[h]|
    && h < |s'.indices| && 0 < |s'.indices[h]|
    && var offset := (BaseOf(first) - s.indices[h][f].base) / 32;
       var slot := Wrap(f + offset, |s'.indices[h]|);
       block == s'.indices[h][Wrap(slot + BlockNo(i) - BlockNo(first), |s'.indices[h]|)].block
  }

  lemma TrackFinds<T>(s: State<T>, s': State<T>, h: nat, f: int, first: nat, i: nat, back: nat)
    requires s.Tracks(h, f, i, back) && s'.Tracks(h, f, i, back) && first <= i
    ensures FindsBlock(s, s', h, f, first, i, s'.Owner(i))
  {
    var walk := BlockNo(i) - BlockNo(first);
    assert BaseOf(first) - s.indices[h][f].base == 32 * (0 - back - walk);
    WrapMove(f - back - walk, walk, |s'.indices[h]|);
  }

  // The block and the element that a consumer of index i comes to, when it reads the index array, its
  // front, a base, a block pointer and the element at five moments of a run.
  ghost predicate Finds<T(!new)>(run: seq<State<T>>, first: nat, i: nat, t0: nat, t1: nat, t2: nat, t3: nat, t4: nat,
                          block: nat)
    requires t0 <= t1 <= t2 <= t3 <= t4 < |run| && 0 < |run[t0].indices| <= |run[t1].fronts|
  {
    && FindsBlock(run[t2], run[t3], |run[t0].indices| - 1, run[t1].fronts[|run[t0].indices| - 1], first, i, block)
    && block < |run[t4].blocks| && WholeBlock(run[t4].blocks[block])
    && i < |run[t0].items| && run[t4].blocks[block].elements[Offset(i)] == Some(run[t0].items[i])
  }

  // However many blocks the producer reuses or inserts and however often it replaces the index in
  // between, a consumer that has claimed indices from `first` on, single or bulk, ends at its own
  // element for each of them.
  lemma LateConsumerFindsItsElement<T(!new)>(run: seq<State<T>>, first: nat, i: nat,
                                             t0: nat, t1: nat, t2: nat, t3: nat, t4: nat) returns (block: nat)
    requires Run(run) && t0 <= t1 <= t2 <= t3 <= t4 < |run| && first <= i
    requires i < run[t0].tailIndex && i !in run[t4].finished
    ensures 0 < |run[t0].indices| <= |run[t1].fronts|
    ensures Finds(run, first, i, t0, t1, t2, t3, t4, block)
  {
    RunKeeps(run, t0, t0);
    RunKeeps(run, t0, t1);
    RunKeeps(run, t1, t2);
    RunKeeps(run, t2, t3);
    RunKeeps(run, t3, t4);
    var h := |run[t0].indices| - 1;
    CurrentFrontReaches(run[t0], i);
    assert run[t1].Pending(i) && run[t1].Reaches(h, i);
    var f := run[t1].fronts[h];
    var back: nat :| run[t1].Tracks(h, f, i, back);
    assert run[t2].Pending(i) && run[t2].Tracks(h, f, i, back);
    assert run[t3].Pending(i) && run[t3].Tracks(h, f, i, back);
    TrackFinds(run[t2], run[t3], h, f, first, i, back);
    block := run[t3].Owner(i);
    assert run[t4].Pending(i) && SameOwner(run[t3], run[t4], i);
    assert run[t4].CellOk(run[t4].blocks[run[t4].Owner(i)], i);
  }

  // ---- The object ----

  class ExplicitProducer<T(!new)> {
    var tailIndex: nat
    var headIndex: nat
    var tailBlock: Option<nat>
    var blocks: seq<Block<T>> // every block this producer ever requisitioned
    var slotsUsed: nat // pr_blockIndexSlotsUsed
    var indexFront: nat // pr_blockIndexFront, the slot to write next
    var indices: seq<seq<Entry>> // the current array is the last; consumers may still use the others
    var fronts: seq<int> // each array's published front

    ghost var items: seq<T>
    ghost var finished: set<nat>
    ghost var ring: seq<nat>
    ghost var last: nat
    ghost var written: nat
    ghost var open: bool

    ghost function S(): State<T>
      reads this
    {
      State(tailIndex, headIndex, tailBlock, blocks, slotsUsed, indexFront, indices, fronts,
            items, finished, ring, last, written, open)
    }

    // `size` is EXPLICIT_INITIAL_INDEX_SIZE, or more for a large initial block pool.
    constructor (size: nat)
      requires size > 0
      ensures S().Ok() && S().Ready() && items == [] && headIndex == 0 && finished == {}
    {
      tailIndex, headIndex, tailBlock, blocks := 0, 0, None, [];
      slotsUsed, indexFront, indices, fronts := 0, 0, [seq(size, _ => Entry(0, 0))], [-1];
      items, finished, ring, last, written, open := [], {}, [], 0, 0, false;
    }

    // is_empty reads the flags one by one.
    static method AllSet(flags: seq<bool>) returns (all: bool)
      ensures all <==> forall f | 0 <= f < |flags| :: flags[f]
    {
      var i := 0;
      while i < |flags|
        invariant 0 <= i <= |flags| && forall f | 0 <= f < i :: flags[f]
      {
        if !flags[i] {
          return false;
        }
        i := i + 1;
      }
      return true;
    }

    // The entry for the new tail block: its base and its block, and then the published front.
    method AddEntry()
      requires S().CanWrite()
      modifies `indices, `fronts, `indexFront, `written, `open
      ensures S().Ok() && Leads(old(S()), S()) && S().HasRoom()
    {
      StoreBase();
      label based:
      StoreBlock();
      LeadsOn(old(S()), old@based(S()), S());
      label named:
      StoreFront();
      LeadsOn(old(S()), old@named(S()), S());
    }

    method StoreBase()
      requires S().CanWrite()
      modifies `indices
      ensures S() == old(S()).BaseStored() && S().CanWrite() && Leads(old(S()), S())
    {
      var c := |indices| - 1;
      var e := indices[c][indexFront].(base := tailIndex);
      WriteStep(S(), e);
      OneStep(S(), S().BaseStored());
      indices := indices[c := indices[c][indexFront := e]];
    }

    method StoreBlock()
      requires S().CanWrite() && S().Current()[indexFront].base == tailIndex
      modifies `indices
      ensures S() == old(S()).BlockStored() && S().CanPublish() && Leads(old(S()), S())
    {
      var c := |indices| - 1;
      var e := indices[c][indexFront].(block := tailBlock.value);
      WriteStep(S(), e);
      OneStep(S(), S().BlockStored());
      indices := indices[c := indices[c][indexFront := e]];
    }

    method StoreFront()
      requires S().CanPublish()
      modifies `fronts, `indexFront, `written, `open
      ensures S() == old(S()).FrontStored() && S().Ok() && Leads(old(S()), S()) && S().HasRoom()
    {
      PublishStep(S());
      OneStep(S(), S().FrontStored());
      var c := |indices| - 1;
      fronts := fronts[c := indexFront];
      indexFront := Wrap(indexFront + 1, |indices[c]|);
      written, open := written + 1, false;
    }

    // The next block of the ring becomes the tail block.
    method Rotate()
      requires S().CanReuse()
      modifies `tailBlock, `blocks, `ring, `last, `open
      ensures S() == old(S()).Rotated() && S().CanWrite() && Leads(old(S()), S())
    {
      ReuseStep(S());
      OneStep(S(), S().Rotated());
      var next := blocks[tailBlock.value].next;
      tailBlock := Some(next);
      blocks := blocks[next := ResetEmpty(blocks[next])];
      ring := ring[1..] + [ring[0]];
      last, open := last + 1, true;
    }

    method Reuse()
      requires S().CanReuse()
      modifies `tailBlock, `blocks, `indices, `fronts, `indexFront, `ring, `last, `written, `open
      ensures S().Ok() && Leads(old(S()), S()) && S().HasRoom()
    {
      Rotate();
      label rotated:
      AddEntry();
      LeadsOn(old(S()), old@rotated(S()), S());
    }

    // new_block_index: an array of twice the slots, the live entries moved to its front. The old
    // arrays are never written again.
    method Grow()
      requires S().Ok() && !open
      modifies `indices, `fronts, `indexFront, `written
      ensures S().Ok() && Leads(old(S()), S())
      ensures |indices| > 0 && exists entries :: old(S()).CanGrow(entries) && S() == old(S()).Grown(entries)
      ensures |S().Current()| == 2 * |old(S().Current())|
    {
      var size := |indices[|indices| - 1]|;
      WrapMove(written, 0 - slotsUsed, size);
      var entries := CopyEntries(indices[|indices| - 1], slotsUsed, indexFront, written - slotsUsed);
      ghost var s := S();
      CopyIsLive(s, entries);
      GrowStep(s, entries);
      OneStep(s, s.Grown(entries));
      indices := indices + [entries];
      fronts := fronts + [slotsUsed - 1];
      indexFront := slotsUsed;
      written := slotsUsed;
      assert S() == s.Grown(entries);
    }

    // The block is linked in after the tail block.
    method Link(b: Block<T>)
      requires S().CanInsert(b)
      modifies `tailBlock, `blocks, `slotsUsed, `ring, `last, `open
      ensures S() == old(S()).Linked(b) && S().CanWrite() && Leads(old(S()), S())
    {
      InsertStep(S(), b);
      OneStep(S(), S().Linked(b));
      LinkIn(b);
    }

    method LinkIn(b: Block<T>)
      requires tailBlock == if ring == [] then None else Some(ring[|ring| - 1])
      requires ring != [] ==> ring[|ring| - 1] < |blocks| && blocks[ring[|ring| - 1]].next == ring[0]
      modifies `tailBlock, `blocks, `slotsUsed, `ring, `last, `open
      ensures S() == old(S()).Linked(b)
    {
      ghost var s := S();
      var id := |blocks|;
      if tailBlock == None {
        blocks := blocks + [ResetEmpty(b).(next := id)];
        last := 0;
      } else {
        var t := tailBlock.value;
        var b' := ResetEmpty(b).(next := blocks[t].next);
        blocks := blocks[t := blocks[t].(next := id)] + [b'];
        last := last + 1;
      }
      tailBlock := Some(id);
      slotsUsed := slotsUsed + 1;
      ring, open := ring + [id], true;
      assert S() == s.Linked(b);
    }

    method Insert(b: Block<T>)
      requires S().CanInsert(b)
      modifies `tailBlock, `blocks, `slotsUsed, `indices, `fronts, `indexFront, `ring, `last, `written, `open
      ensures S().Ok() && Leads(old(S()), S()) && S().HasRoom()
    {
      Link(b);
      label linked:
      AddEntry();
      LeadsOn(old(S()), old@linked(S()), S());
    }

    // Construct the element in place and publish the new tail.
    method Append(x: T)
      requires S().Ok() && S().HasRoom()
      modifies `blocks, `tailIndex, `items
      ensures S() == old(S()).Appended(x) && S().Ok() && Leads(old(S()), S()) && S().Ready()
    {
      AppendStep(S(), x);
      OneStep(S(), S().Appended(x));
      var t := tailBlock.value;
      blocks := blocks[t := blocks[t].(elements := blocks[t].elements[Offset(tailIndex) := Some(x)])];
      tailIndex := tailIndex + 1;
      items := items + [x];
    }

    // A block that is not in use: linked in, with a larger index if the current one is full.
    method Extend(mayGrow: bool, supply: Option<Block<T>>) returns (ok: bool)
      requires S().Ok() && !open && !S().HasRoom() && (supply.Some? ==> WholeBlock(supply.value))
      modifies `tailBlock, `blocks, `slotsUsed, `indices, `fronts, `indexFront, `ring, `last, `written, `open
      ensures S().Ok() && Leads(old(S()), S()) && !open
      ensures ok == S().HasRoom()
      ensures ok <==> supply.Some? && (old(slotsUsed < |S().Current()|) || mayGrow)
    {
      NoStep(S());
      if slotsUsed == |indices[|indices| - 1]| {
        if !mayGrow {
          return false;
        }
        Grow();
      }
      if supply == None {
        return false;
      }
      label grown:
      Insert(supply.value);
      LeadsOn(old(S()), old@grown(S()), S());
      return true;
    }

    // At the end of the tail block: the next block of the ring if it is empty, else one more.
    method NextBlock(mayGrow: bool, supply: Option<Block<T>>) returns (ok: bool)
      requires S().Ok() && !open && !S().HasRoom() && (supply.Some? ==> WholeBlock(supply.value))
      modifies `tailBlock, `blocks, `slotsUsed, `indices, `fronts, `indexFront, `ring, `last, `written, `open
      ensures S().Ok() && Leads(old(S()), S()) && !open
      ensures ok == S().HasRoom()
      ensures ok <==> old(S().CanReuse()) || (supply.Some? && (old(slotsUsed < |S().Current()|) || mayGrow))
    {
      var reuse := false;
      if tailBlock.Some? {
        reuse := AllSet(blocks[blocks[tailBlock.value].next].emptyFlags);
      }
      if reuse {
        Reuse();
        ok := true;
      } else {
        ok := Extend(mayGrow, supply);
      }
    }

    // `mayGrow` and `supply` say whether a larger index and a block can be had.
    method Enqueue(x: T, mayGrow: bool, supply: Option<Block<T>>) returns (ok: bool)
      requires S().Ok() && S().Ready() && (supply.Some? ==> WholeBlock(supply.value))
      modifies this
      ensures S().Ok() && S().Ready() && Leads(old(S()), S())
      ensures items == (if ok then old(items) + [x] else old(items)) && tailIndex == |items|
      ensures headIndex == old(headIndex) && finished == old(finished)
      ensures ok <==> old(tailIndex) % 32 != 0 || old(S().CanReuse())
                      || (supply.Some? && (old(slotsUsed < |S().Current()|) || mayGrow))
    {
      NoStep(S());
      if tailIndex % 32 == 0 {
        ok := NextBlock(mayGrow, supply);
        if !ok {
          return;
        }
      }
      label staged:
      Append(x);
      LeadsOn(old(S()), old@staged(S()), S());
      return true;
    }

    // `headIndex.fetch_add(1)`; the ticket protocol admits it only below the tail.
    method Claim() returns (i: nat)
      requires S().Ok() && headIndex < tailIndex
      modifies `headIndex
      ensures i == old(headIndex) && S() == old(S()).(headIndex := i + 1) && S().Ok() && Leads(old(S()), S())
    {
      ghost var s := S();
      ClaimStep(s);
      i := headIndex;
      headIndex := headIndex + 1;
      assert S() == s.(headIndex := i + 1);
      OneStep(s, S());
    }

    // The block of the claimed index i, by the signed distance of its base from the front's base.
    method Resolve(i: nat) returns (block: nat)
      requires S().Ok() && S().Pending(i)
      ensures S().InRing(i) && block == S().Owner(i)
      ensures block < |blocks| && WholeBlock(blocks[block])
      ensures blocks[block].elements[Offset(i)] == Some(items[i])
    {
      CurrentFrontReaches(S(), i);
      var h := |indices| - 1;
      var f := fronts[h];
      var headBase := indices[h][f].base;
      var offset := (BaseOf(i) - headBase) / 32;
      block := indices[h][Wrap(f + offset, |indices[h]|)].block;
      ghost var back: nat :| S().Tracks(h, f, i, back);
      assert BaseOf(i) - headBase == 32 * (0 - back);
      assert S().CellOk(blocks[S().Owner(i)], i);
    }

    // The element is moved out, destroyed, and its flag set.
    method Consume(block: nat, i: nat) returns (x: T)
      requires S().CanConsume(i) && block == S().Owner(i)
      modifies `blocks, `finished
      ensures x == items[i] && S() == old(S()).Consumed(i) && S().Ok() && Leads(old(S()), S())
    {
      ConsumeStep(S(), i);
      OneStep(S(), S().Consumed(i));
      assert S().CellOk(blocks[block], i);
      var b := blocks[block];
      x := b.elements[Offset(i)].value;
      blocks := blocks[block := b.(elements := b.elements[Offset(i) := None],
                                   emptyFlags := b.emptyFlags[31 - Offset(i) := true])];
      finished := finished + {i};
    }

    // A dequeue that nothing interrupts: first in, first out.
    method Dequeue() returns (r: Option<T>)
      requires S().Ok()
      modifies this
      ensures S().Ok() && Leads(old(S()), S()) && items == old(items) && tailIndex == old(tailIndex)
      ensures old(headIndex) < tailIndex ==> r == Some(items[old(headIndex)]) && headIndex == old(headIndex) + 1
      ensures old(headIndex) == tailIndex ==> r == None && headIndex == old(headIndex)
    {
      NoStep(S());
      if headIndex < tailIndex {
        var i := Claim();
        label claimed:
        var block := Resolve(i);
        var x := Consume(block, i);
        LeadsOn(old(S()), old@claimed(S()), S());
        return Some(x);
      }
      return None;
    }
  }
}
