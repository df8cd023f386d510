/** One producer's sub-queue as a whole: the ticket counters together with the blocks, entries and elements
    of an implicit producer. Any number of consumers dequeue, single or in bulk, while the producer enqueues.

    The two parts share the head and the tail. A step that moves the head in one moves it in the other, and
    nothing but the tickets guards it.
 */
module Queue {
  import opened Common
  import opened Blocks
  import C = Tickets
  import B = BlockIndex

  datatype State<T> = State(counters: C.State, store: B.State<T>)

  // The thread has claimed index i and is moving its elements out.
  predicate Has(pc: C.Pc, i: nat) {
    pc.Took? && pc.first <= i < pc.first + pc.got
  }

  // The producer publishes an element.
  ghost predicate Publishes<T(!new)>(s: State<T>, s': State<T>) {
    && s.store.CanAppend() && (exists x :: s'.store == s.store.Appended(x))
    && s'.counters == s.counters.(tail := s.counters.tail + 1)
  }

  // It makes room for more, or a consumer gives a block back.
  ghost predicate Arranges<T(!new)>(s: State<T>, s': State<T>) {
    && (B.IndexStep(s.store, s'.store) || exists n :: s.store.CanRelease(n) && s'.store == s.store.Released(n))
    && s'.counters == s.counters
  }

  // A consumer takes a step on the counters; it returns when it has moved out what it claimed.
  ghost predicate Counts<T(!new)>(s: State<T>, t: nat, s': State<T>) {
    && C.Dequeues(s.counters, t, s'.counters)
    && (forall i | Has(s.counters.threads[t], i) :: i in s.store.finished)
    && s'.store == s.store.(headIndex := s'.counters.head)
  }

  // A consumer moves the element of index i out.
  ghost predicate Receives<T(!new)>(s: State<T>, t: nat, i: nat, s': State<T>) {
    && t < |s.counters.threads| && Has(s.counters.threads[t], i) && i !in s.store.finished
    && s.store.InUse(BlockNo(i)) && s'.store == s.store.Consumed(i)
    && s'.counters == s.counters
  }

  ghost predicate Consumes<T(!new)>(s: State<T>, s': State<T>) {
    || (exists t: nat :: Counts(s, t, s'))
    || (exists t: nat, i: nat :: Receives(s, t, i, s'))
  }

  ghost predicate Next<T(!new)>(s: State<T>, s': State<T>) {
    Publishes(s, s') || Arranges(s, s') || Consumes(s, s')
  }

  ghost predicate Init<T>(s: State<T>) {
    && C.Init(s.counters)
    && s.store.Ok() && s.store.items == [] && s.store.finished == {} && s.store.headIndex == 0
  }

  ghost predicate Begins<T>(s: State<T>) {
    exists r :: r == s && Init(r)
  }

  ghost predicate StepAt<T(!new)>(run: seq<State<T>>, k: nat)
    requires k + 1 < |run|
  {
    Next(run[k], run[k + 1])
  }

  ghost predicate Run<T(!new)>(run: seq<State<T>>) {
    |run| > 0 && Begins(run[0]) && forall k | 0 <= k < |run| - 1 :: StepAt(run, k)
  }

  // ---- The invariant ----

  // What was claimed is out, or in the hands of the one thread that claimed it.
  ghost predicate ClaimsOk<T>(s: State<T>) {
    && (forall t | 0 <= t < |s.counters.threads| && s.counters.threads[t].Took? ::
          s.counters.threads[t].first + s.counters.threads[t].got <= s.counters.head)
    && (forall t, t', i: nat | 0 <= t < |s.counters.threads| && 0 <= t' < |s.counters.threads| && t != t' ::
          !(Has(s.counters.threads[t], i) && Has(s.counters.threads[t'], i)))
    && (forall i: nat | i < s.counters.head :: i in s.store.finished || InHand(s, i))
  }

  ghost predicate InHand<T>(s: State<T>, i: nat) {
    exists t :: 0 <= t < |s.counters.threads| && Has(s.counters.threads[t], i)
  }

  ghost predicate Together<T>(s: State<T>) {
    s.store.headIndex == s.counters.head && s.store.tailIndex == s.counters.tail
  }

  ghost predicate Inv<T>(s: State<T>) {
    s.store.Ok() && Together(s) && ClaimsOk(s)
  }

  // The invariant as a single fact.
  ghost predicate Safe<T>(s: State<T>) {
    exists r :: r == s && Inv(r)
  }

  lemma ItemsOfOk<T>(s: B.State<T>)
    requires s.Ok()
    ensures s.headIndex <= s.tailIndex == |s.items| && forall i | i in s.finished :: i < s.headIndex
  {
  }

  // An element that a consumer has claimed and not moved out is there, in a block in use.
  lemma ClaimedIsThere<T>(s: State<T>, t: nat, i: nat)
    requires Inv(s) && t < |s.counters.threads| && Has(s.counters.threads[t], i) && i !in s.store.finished
    ensures s.store.CanConsume(i) && s.store.InUse(BlockNo(i)) && i < |s.store.items|
    ensures s.store.blocks[s.store.owner[BlockNo(i)]].elements[Offset(i)] == Some(s.store.items[i])
  {
    ItemsOfOk(s.store);
    assert s.store.Pending(i);
    B.ElementFound(s.store, i);
  }

  // Nothing changes hands.
  lemma SameHands<T>(s: State<T>, s': State<T>)
    requires ClaimsOk(s) && s'.counters.threads == s.counters.threads && s'.counters.head == s.counters.head
    requires s.store.finished <= s'.store.finished
    ensures ClaimsOk(s')
  {
    assert forall i: nat | InHand(s, i) :: InHand(s', i);
  }

  lemma PublishKeeps<T(!new)>(s: State<T>, s': State<T>)
    requires Inv(s) && Publishes(s, s')
    ensures Inv(s') && B.Next(s.store, s'.store) && C.SomeStep(s.counters, s'.counters)
  {
    var x :| s'.store == s.store.Appended(x);
    B.AppendedStep(s.store, x);
    SameHands(s, s');
  }

  lemma ArrangeKeeps<T(!new)>(s: State<T>, s': State<T>)
    requires Inv(s) && Arranges(s, s')
    ensures Inv(s') && B.Next(s.store, s'.store) && C.SomeStep(s.counters, s'.counters)
  {
    B.StepKeeps(s.store, s'.store);
    ArrangedFields(s.store, s'.store);
    SameHands(s, s');
  }

  lemma ArrangedFields<T(!new)>(p: B.State<T>, p': B.State<T>)
    requires B.IndexStep(p, p') || exists n :: p.CanRelease(n) && p' == p.Released(n)
    ensures p'.headIndex == p.headIndex && p'.tailIndex == p.tailIndex && p'.finished == p.finished &&
            p'.items == p.items
  {
  }

  lemma ReceiveKeeps<T(!new)>(s: State<T>, t: nat, i: nat, s': State<T>)
    requires Inv(s) && Receives(s, t, i, s')
    ensures Inv(s') && B.Next(s.store, s'.store) && C.SomeStep(s.counters, s'.counters)
  {
    ClaimedIsThere(s, t, i);
    B.ConsumedStep(s.store, i);
    SameHands(s, s');
  }

  // What a step of a consumer does to the counters.
  lemma CountedFields(q: C.State, t: nat, q': C.State)
    requires C.Dequeues(q, t, q')
    ensures q'.tail == q.tail && q.head <= q'.head && |q'.threads| == |q.threads|
    ensures q'.threads == q.threads[t := q'.threads[t]]
    ensures if q'.threads[t].Took? then q'.threads[t] == C.Took(q.head, q'.head - q.head) else q'.head == q.head
  {
  }

  lemma NewClaims<T>(s: State<T>, t: nat, s': State<T>)
    requires ClaimsOk(s) && C.Dequeues(s.counters, t, s'.counters) && s'.store.finished == s.store.finished
    requires forall i | Has(s.counters.threads[t], i) :: i in s.store.finished
    ensures ClaimsOk(s')
  {
    CountedFields(s.counters, t, s'.counters);
    forall i: nat | i < s'.counters.head ensures i in s'.store.finished || InHand(s', i) {
      if i >= s.counters.head {
        assert Has(s'.counters.threads[t], i);
      } else if i !in s.store.finished {
        var t' :| 0 <= t' < |s.counters.threads| && Has(s.counters.threads[t'], i);
        assert Has(s'.counters.threads[t'], i);
      }
    }
  }

  lemma CountKeeps<T(!new)>(s: State<T>, t: nat, s': State<T>)
    requires Inv(s) && Counts(s, t, s') && s'.counters.head <= s'.counters.tail
    ensures Inv(s') && B.Next(s.store, s'.store)
  {
    CountedFields(s.counters, t, s'.counters);
    var n: nat := s'.counters.head - s.counters.head;
    assert B.CanClaim(s.store, n) && s'.store == B.Claimed(s.store, n);
    B.ClaimedStep(s.store, n);
    NewClaims(s, t, s');
  }

  // ---- Runs ----

  // The counters of a run.
  ghost function Counters<T>(run: seq<State<T>>): (b: seq<C.State>)
    ensures |b| == |run| && forall k | 0 <= k < |run| :: b[k] == run[k].counters
  {
    seq(|run|, k requires 0 <= k < |run| => run[k].counters)
  }

  ghost function Store<T>(run: seq<State<T>>): (b: seq<B.State<T>>)
    ensures |b| == |run| && forall k | 0 <= k < |run| :: b[k] == run[k].store
  {
    seq(|run|, k requires 0 <= k < |run| => run[k].store)
  }

  lemma StepCounts<T(!new)>(s: State<T>, s': State<T>)
    requires Next(s, s')
    ensures C.SomeStep(s.counters, s'.counters)
  {
    if Consumes(s, s') {
      if t: nat :| Counts(s, t, s') {
        assert C.SomeDequeue(s.counters, s'.counters);
      }
    }
  }

  lemma RunCounts<T(!new)>(run: seq<State<T>>)
    requires Run(run)
    ensures C.Run(Counters(run))
  {
    var b := Counters(run);
    forall k | 0 <= k < |b| - 1 ensures C.StepAt(b, k) {
      assert StepAt(run, k);
      StepCounts(run[k], run[k + 1]);
    }
  }

  lemma StepKeeps<T(!new)>(s: State<T>, s': State<T>)
    requires Inv(s) && Next(s, s') && s'.counters.head <= s'.counters.tail
    ensures Inv(s') && B.Next(s.store, s'.store)
  {
    if Publishes(s, s') {
      PublishKeeps(s, s');
    } else if Arranges(s, s') {
      ArrangeKeeps(s, s');
    } else if t: nat :| Counts(s, t, s') {
      CountKeeps(s, t, s');
    } else {
      var t: nat, i: nat :| Receives(s, t, i, s');
      ReceiveKeeps(s, t, i, s');
    }
  }

  lemma RunStep<T(!new)>(run: seq<State<T>>, k: nat)
    requires Run(run) && k + 1 < |run| && Safe(run[k])
    ensures Safe(run[k + 1]) && B.Next(run[k].store, run[k + 1].store)
  {
    RunCounts(run);
    C.HeadNeverPassesTail(Counters(run), k + 1);
    assert StepAt(run, k);
    StepKeeps(run[k], run[k + 1]);
  }

  lemma InitOk<T>(s: State<T>)
    requires Begins(s)
    ensures Safe(s)
  {
    ItemsOfOk(s.store);
    assert Inv(s);
  }

  /** The tickets are guard enough: in every run the store is in order, head and tail are those of the
      counters, and what was claimed is out or in the hands of one thread. */
  lemma RunSafe<T(!new)>(run: seq<State<T>>, k: nat)
    requires Run(run) && k < |run|
    ensures Safe(run[k])
  {
    InitOk(run[0]);
    var p := (i: nat) => i < |run| && Safe(run[i]);
    forall i: nat | i < |run| - 1 && p(i) ensures p(i + 1) {
      RunStep(run, i);
    }
    Induction(|run| - 1, k, p);
  }

  lemma {:induction false} Induction(n: nat, k: nat, p: nat -> bool)
    requires k <= n && p(0) && forall i: nat | i < n && p(i) :: p(i + 1)
    ensures p(k)
  {
    if k > 0 {
      Induction(n, k - 1, p);
      assert k - 1 + 1 == k;
    }
  }

  lemma RunStores<T(!new)>(run: seq<State<T>>)
    requires Run(run)
    ensures B.Run(Store(run))
  {
    RunSafe(run, 0);
    var b := Store(run);
    forall k | 0 <= k < |b| - 1 ensures B.StepAt(b, k) {
      RunSafe(run, k);
      RunStep(run, k);
    }
  }

  // ---- Main results ----

  // At step k thread t moves the element of index i out.
  ghost predicate ReceivesAt<T(!new)>(run: seq<State<T>>, k: nat, t: nat, i: nat) {
    k + 1 < |run| && Receives(run[k], t, i, run[k + 1])
  }

  /** Whoever moves an element out has the one that was enqueued under its index. */
  lemma ReceivedIsEnqueued<T(!new)>(run: seq<State<T>>, k: nat, t: nat, i: nat)
    requires Run(run) && ReceivesAt(run, k, t, i)
    ensures run[k].store.InUse(BlockNo(i)) && i < |run[k].store.items| && i < run[k].counters.head
    ensures run[k].store.blocks[run[k].store.owner[BlockNo(i)]].elements[Offset(i)] == Some(run[k].store.items[i])
  {
    RunSafe(run, k);
    ClaimedIsThere(run[k], t, i);
  }

  lemma FinishedGrows<T(!new)>(run: seq<State<T>>, j: nat, k: nat)
    requires Run(run) && j <= k < |run|
    ensures run[j].store.finished <= run[k].store.finished && run[j].store.items <= run[k].store.items
  {
    RunStores(run);
    B.RunKeeps(Store(run), j, k);
  }

  /** No element is received twice, by one thread or by two. */
  lemma ReceivedOnce<T(!new)>(run: seq<State<T>>, j: nat, k: nat, t: nat, t': nat, i: nat)
    requires Run(run) && ReceivesAt(run, j, t, i) && ReceivesAt(run, k, t', i)
    ensures j == k && t == t'
  {
    if j < k {
      FinishedGrows(run, j + 1, k);
    } else if k < j {
      FinishedGrows(run, k + 1, j);
    } else {
      RunSafe(run, k);
    }
  }

  /** When all dequeues have returned, exactly the claimed elements have been received. */
  lemma AllAreReceived<T(!new)>(run: seq<State<T>>, k: nat, i: nat)
    requires Run(run) && k < |run| && C.Quiescent(run[k].counters)
    ensures i in run[k].store.finished <==> i < run[k].counters.head
  {
    RunSafe(run, k);
    ItemsOfOk(run[k].store);
  }

  // What is in the queue: published and not claimed.
  ghost function Contents<T>(s: State<T>): seq<T>
    requires s.counters.head <= |s.store.items|
  {
    s.store.items[s.counters.head..]
  }

  // The steps of a queue in one piece: x comes in at the end, or thread t takes the first `got`.
  datatype Event<T> = Quiet | In(x: T) | Out(t: nat, got: nat)

  ghost predicate Happens<T>(s: State<T>, e: Event<T>, s': State<T>)
    requires s.counters.head <= |s.store.items| && s'.counters.head <= |s'.store.items|
  {
    match e
    case Quiet => Contents(s') == Contents(s)
    case In(x) => Contents(s') == Contents(s) + [x]
    case Out(t, got) =>
      && got <= |Contents(s)| && Contents(s') == Contents(s)[got..]
      && t < |s'.counters.threads| && s'.counters.threads[t] == C.Took(s.counters.head, got)
      && s'.store.items == s.store.items
  }

  lemma Bounded<T(!new)>(run: seq<State<T>>, k: nat)
    requires Run(run) && k < |run|
    ensures run[k].counters.head <= |run[k].store.items|
  {
    RunSafe(run, k);
    ItemsOfOk(run[k].store);
  }

  /** Every step is one of a queue in one piece, so elements leave in the order in which they came. */
  lemma RunIsFirstInFirstOut<T(!new)>(run: seq<State<T>>, k: nat) returns (e: Event<T>)
    requires Run(run) && k + 1 < |run|
    ensures run[k].counters.head <= |run[k].store.items| && run[k + 1].counters.head <= |run[k + 1].store.items|
    ensures Happens(run[k], e, run[k + 1])
  {
    Bounded(run, k);
    Bounded(run, k + 1);
    var s, s' := run[k], run[k + 1];
    assert StepAt(run, k);
    e := Quiet;
    if Publishes(s, s') {
      var x :| s'.store == s.store.Appended(x);
      e := In(x);
    } else if Arranges(s, s') {
      ArrangedFields(s.store, s'.store);
    } else if t: nat :| Counts(s, t, s') {
      e := CountHappens(s, t, s');
    }
  }

  lemma CountHappens<T(!new)>(s: State<T>, t: nat, s': State<T>) returns (e: Event<T>)
    requires Counts(s, t, s') && s.counters.head <= |s.store.items| && s'.counters.head <= |s'.store.items|
    ensures Happens(s, e, s')
  {
    CountedFields(s.counters, t, s'.counters);
    e := if s'.counters.threads[t].Took? then Out(t, s'.counters.head - s.counters.head) else Quiet;
  }

  /** A consumer that has claimed the indices from `first` on, and goes through array, tail, base, block and
      element at five later moments, comes to the element of each of them; the entry it then clears is
      still its block's. */
  lemma ClaimantFindsItsElement<T(!new)>(run: seq<State<T>>, c: nat, t: nat, i: nat,
                                         t0: nat, t1: nat, t2: nat, t3: nat, t4: nat, t5: nat)
    returns (e: nat, block: nat)
    requires Run(run) && c <= t0 <= t1 <= t2 <= t3 <= t4 <= t5 < |run|
    requires t < |run[c].counters.threads| && Has(run[c].counters.threads[t], i) && i !in run[t4].store.finished
    ensures 0 < |run[t0].store.indices| <= |run[t1].store.tails|
    ensures B.Finds(Store(run), run[c].counters.threads[t].first, i, t0, t1, t2, t3, t4, e, block)
    ensures BlockNo(i) in run[t5].store.owner ==>
              run[t5].store.ArraysOk() && run[t5].store.EntryOf(BlockNo(i)) == e &&
                run[t5].store.owner[BlockNo(i)] == block
  {
    RunSafe(run, c);
    ItemsOfOk(run[c].store);
    RunStores(run);
    TailGrows(run, c, t0);
    e, block := B.LateConsumerFindsItsElement(Store(run), run[c].counters.threads[t].first, i, t0, t1, t2, t3, t4, t5);
  }

  lemma TailGrows<T(!new)>(run: seq<State<T>>, j: nat, k: nat)
    requires Run(run) && j <= k < |run|
    ensures run[j].store.tailIndex <= run[k].store.tailIndex
  {
    RunStores(run);
    B.RunKeeps(Store(run), j, k);
  }
}
