/** The calls of a sub-queue can go through: from every state that can be reached, whatever the consumers are
    in the middle of, an element can be put in; and when they have all returned, a dequeue obtains the oldest
    elements. Each is shown by continuing the run with the steps of one thread alone.
 */
module QueueCalls {
  import opened Common
  import opened Blocks
  import opened Modular
  import opened Queue
  import C = Tickets
  import B = BlockIndex

  ghost function Last<T(!new)>(run: seq<State<T>>): State<T>
    requires |run| > 0
  {
    run[|run| - 1]
  }

  ghost predicate Continues<T(!new)>(run: seq<State<T>>, run': seq<State<T>>) {
    Run(run') && run <= run'
  }

  lemma Goes<T(!new)>(run: seq<State<T>>, s: State<T>) returns (run': seq<State<T>>)
    requires Run(run) && Next(Last(run), s)
    ensures Continues(run, run') && Last(run') == s
  {
    run' := run + [s];
    forall k | 0 <= k < |run'| - 1 ensures StepAt(run', k) {
      if k < |run| - 1 {
        StepStays(run, k, s);
      } else {
        StepComes(run, s);
      }
    }
    StartStays(run, s);
  }

  lemma StepComes<T(!new)>(run: seq<State<T>>, s: State<T>)
    requires |run| > 0 && Next(Last(run), s)
    ensures StepAt(run + [s], |run| - 1)
  {
    assert (run + [s])[|run| - 1] == Last(run) && (run + [s])[|run|] == s;
  }

  lemma StartStays<T(!new)>(run: seq<State<T>>, s: State<T>)
    requires |run| > 0 && Begins(run[0])
    ensures Begins((run + [s])[0])
  {
    assert (run + [s])[0] == run[0];
  }

  lemma StepStays<T(!new)>(run: seq<State<T>>, k: nat, s: State<T>)
    requires k + 1 < |run| && StepAt(run, k)
    ensures StepAt(run + [s], k)
  {
    assert (run + [s])[k] == run[k] && (run + [s])[k + 1] == run[k + 1];
  }

  // ---- Room for one more ----

  // The producer's next store to its index.
  lemma Stores<T(!new)>(run: seq<State<T>>, store: B.State<T>) returns (run': seq<State<T>>)
    requires Run(run) && B.IndexStep(Last(run).store, store)
    ensures Continues(run, run') && Last(run') == Last(run).(store := store)
    ensures store.Ok() && SameElements(Last(run), Last(run'))
  {
    B.IndexStepKeeps(Last(run).store, store);
    ArrangedFields(Last(run).store, store);
    assert Arranges(Last(run), Last(run).(store := store));
    run' := Goes(run, Last(run).(store := store));
  }

  ghost predicate SameElements<T(!new)>(s: State<T>, s': State<T>) {
    && s'.counters == s.counters && s'.store.items == s.store.items && s'.store.finished == s.store.finished
    && s'.store.headIndex == s.store.headIndex && s'.store.tailIndex == s.store.tailIndex
  }

  lemma FreshName(names: set<nat>) returns (b: nat)
    ensures b !in names
  {
    if names == {} {
      b := 0;
    } else {
      var m := C.Largest(names);
      b := m + 1;
    }
  }

  // With the next entry opened, a block is put into it.
  lemma RoomFromOpened<T(!new)>(run: seq<State<T>>) returns (run': seq<State<T>>)
    requires Run(run) && Last(run).store.Ok() && Last(run).store.stage == B.Opened
    ensures Continues(run, run') && Last(run').store.CanAppend() && SameElements(Last(run), Last(run'))
  {
    var s := Last(run).store;
    var b := FreshName(s.blocks.Keys);
    var none: Option<T> := None;
    var block := B.Block(seq(32, _ => none), 0);
    assert s.CanStore(b, block);
    run' := Stores(run, s.ValueStored(b, block));
    OpenedHasRoom(s, b, block);
  }

  lemma OpenedHasRoom<T(!new)>(s: B.State<T>, b: nat, block: B.Block<T>)
    requires s.Ok() && s.stage == B.Opened
    ensures s.ValueStored(b, block).HasRoom()
  {
  }

  lemma RoomFromKeyed<T(!new)>(run: seq<State<T>>) returns (run': seq<State<T>>)
    requires Run(run) && Last(run).store.Ok() && Last(run).store.stage == B.Keyed
    ensures Continues(run, run') && Last(run').store.CanAppend() && SameElements(Last(run), Last(run'))
  {
    var run1 := Stores(run, Last(run).store.TailStored());
    run' := RoomFromOpened(run1);
  }

  // At the end of a block, the index grows if its next entry is not free.
  lemma RoomAtEnd<T(!new)>(run: seq<State<T>>) returns (run': seq<State<T>>)
    requires Run(run) && Last(run).store.AtEnd()
    ensures Continues(run, run') && Last(run').store.CanAppend() && SameElements(Last(run), Last(run'))
  {
    var run1 := EntryIsFreed(run);
    var run2 := Stores(run1, Last(run1).store.KeyStored());
    run' := RoomFromKeyed(run2);
  }

  lemma EntryIsFreed<T(!new)>(run: seq<State<T>>) returns (run': seq<State<T>>)
    requires Run(run) && Last(run).store.AtEnd()
    ensures Continues(run, run') && Last(run').store.AtEnd() && Last(run').store.NextFree()
    ensures SameElements(Last(run), Last(run'))
  {
    var s := Last(run).store;
    run' := run;
    if !s.NextFree() {
      var junk, index := Larger(s);
      B.GrownStep(s, junk, index);
      run' := Stores(run, s.Grown(junk, index));
    }
  }

  lemma Larger<T(!new)>(s: B.State<T>) returns (junk: seq<Option<nat>>, index: seq<nat>)
    requires s.AtEnd() && !s.NextFree()
    ensures s.CanGrow(junk, index)
  {
    var n, tail := |s.Current()|, s.tails[|s.tails| - 1];
    junk := seq(n, _ => None);
    index := seq(n, k requires 0 <= k < n => s.Current()[Wrap(tail + 1 + k, n)]) +
             seq<nat>(n, k requires 0 <= k < n => |s.entries| + k);
  }

  lemma RoomIsMade<T(!new)>(run: seq<State<T>>) returns (run': seq<State<T>>)
    requires Run(run) && Last(run).store.Ok()
    ensures Continues(run, run') && Last(run').store.CanAppend() && SameElements(Last(run), Last(run'))
  {
    var s := Last(run).store;
    match s.stage
    case Keyed => run' := RoomFromKeyed(run);
    case Opened => run' := RoomFromOpened(run);
    case Rewinding =>
      RewoundIsAtEnd(s);
      var run1 := Stores(run, s.NullStored());
      run' := RoomAtEnd(run1);
    case Idle =>
      if s.HasRoom() {
        run' := run;
      } else {
        IdleIsAtEnd(s);
        run' := RoomAtEnd(run);
      }
  }

  lemma RewoundIsAtEnd<T(!new)>(s: B.State<T>)
    requires s.Ok() && s.stage == B.Rewinding
    ensures s.NullStored().AtEnd()
  {
    B.NullStoredStep(s);
  }

  lemma IdleIsAtEnd<T(!new)>(s: B.State<T>)
    requires s.Ok() && s.stage == B.Idle && !s.HasRoom()
    ensures s.AtEnd()
  {
  }

  /** From any state, the producer can go on to put an element in behind all others. */
  lemma EnqueueGoesThrough<T(!new)>(run: seq<State<T>>, x: T) returns (run': seq<State<T>>)
    requires Run(run)
    ensures Continues(run, run')
    ensures Last(run').counters == Last(run).counters.(tail := Last(run).counters.tail + 1)
    ensures Last(run').store.items == Last(run).store.items + [x]
    ensures Last(run').store.finished == Last(run).store.finished
  {
    RunSafe(run, |run| - 1);
    var run1 := RoomIsMade(run);
    var s := Last(run1);
    B.AppendedStep(s.store, x);
    var s' := State(s.counters.(tail := s.counters.tail + 1), s.store.Appended(x));
    assert Publishes(s, s');
    run' := Goes(run1, s');
  }

  /** A thread that has counted the last element of a block can go on to give the block back. */
  lemma BlockIsGivenBack<T(!new)>(run: seq<State<T>>, n: int) returns (run': seq<State<T>>)
    requires Run(run) && n in Last(run).store.releasing
    ensures Continues(run, run') && Last(run').counters == Last(run).counters
    ensures n !in Last(run').store.releasing && n !in Last(run').store.owner
    ensures Last(run').store.items == Last(run).store.items && Last(run').store.finished == Last(run).store.finished
  {
    RunSafe(run, |run| - 1);
    var s := Last(run);
    assert s.store.CanRelease(n);
    B.ReleasedStep(s.store, n);
    assert Arranges(s, s.(store := s.store.Released(n)));
    run' := Goes(run, s.(store := s.store.Released(n)));
  }

  // ---- Undisturbed dequeues ----

  // The claim of an undisturbed dequeue.
  lemma ClaimGoesThrough<T(!new)>(run: seq<State<T>>, t: nat, max: nat) returns (run': seq<State<T>>)
    requires Run(run) && C.Quiescent(Last(run).counters) && t < |Last(run).counters.threads|
    requires Last(run).counters.head < Last(run).counters.tail
    ensures Continues(run, run')
    ensures var c, n := Last(run).counters, C.Min(max, Last(run).counters.tail - Last(run).counters.head);
      && Last(run').counters == c.(head := c.head + n, optimistic := c.optimistic + n,
                                   threads := c.threads[t := C.Took(c.head, n)])
      && Last(run').store == Last(run).store.(headIndex := c.head + n)
  {
    RunCounts(run);
    RunSafe(run, |run| - 1);
    var rest := C.LoneDequeueIsExact(Counters(run), t, max);
    run' := CountsAlong(run, t, rest);
  }

  lemma {:induction false} CountsAlong<T(!new)>(run: seq<State<T>>, t: nat, rest: seq<C.State>)
    returns (run': seq<State<T>>)
    requires Run(run) && rest != [] && C.Dequeues(Last(run).counters, t, rest[0])
    requires t < |Last(run).counters.threads| && !Last(run).counters.threads[t].Took?
    requires forall j | 0 <= j < |rest| - 1 :: C.Dequeues(rest[j], t, rest[j + 1])
    requires forall j | 0 <= j < |rest| - 1 :: t < |rest[j].threads| && !rest[j].threads[t].Took?
    ensures Continues(run, run')
    ensures Last(run').counters == rest[|rest| - 1]
    ensures Last(run').store == Last(run).store.(headIndex := rest[|rest| - 1].head)
    decreases |rest|
  {
    var s := State(rest[0], Last(run).store.(headIndex := rest[0].head));
    assert Counts(Last(run), t, s);
    var run1 := Goes(run, s);
    if |rest| == 1 {
      run' := run1;
    } else {
      assert forall j | 0 <= j < |rest| - 1 :: rest[1..][j] == rest[j + 1];
      run' := CountsAlong(run1, t, rest[1..]);
    }
  }

  // The claimed elements are moved out, one after the other.
  lemma {:induction false} MovesOut<T(!new)>(run: seq<State<T>>, t: nat, i: nat) returns (run': seq<State<T>>)
    requires Run(run) && t < |Last(run).counters.threads| && Last(run).counters.threads[t].Took?
    requires var pc := Last(run).counters.threads[t];
             && pc.first <= i <= pc.first + pc.got
             && forall j | i <= j < pc.first + pc.got :: j !in Last(run).store.finished
    ensures Continues(run, run') && Last(run').counters == Last(run).counters
    ensures Last(run').store.items == Last(run).store.items
    ensures var pc := Last(run).counters.threads[t];
            forall j: nat :: j in Last(run').store.finished <==>
                             j in Last(run).store.finished || i <= j < pc.first + pc.got
    decreases Last(run).counters.threads[t].first + Last(run).counters.threads[t].got - i
  {
    var pc := Last(run).counters.threads[t];
    if i == pc.first + pc.got {
      run' := run;
    } else {
      RunSafe(run, |run| - 1);
      var s := Last(run);
      ClaimedIsThere(s, t, i);
      var s' := s.(store := s.store.Consumed(i));
      assert Receives(s, t, i, s');
      var run1 := Goes(run, s');
      run' := MovesOut(run1, t, i + 1);
    }
  }

  /** From any state in which all dequeues have returned and the queue is not empty, an undisturbed dequeue can
      move out exactly the oldest elements, as many as it wants or there are, and return. */
  lemma DequeueGoesThrough<T(!new)>(run: seq<State<T>>, t: nat, max: nat) returns (run': seq<State<T>>)
    requires Run(run) && C.Quiescent(Last(run).counters) && t < |Last(run).counters.threads|
    requires Last(run).counters.head < Last(run).counters.tail
    ensures Continues(run, run') && C.Quiescent(Last(run').counters)
    ensures Last(run').store.items == Last(run).store.items && Last(run').counters.tail == Last(run).counters.tail
    ensures var c, n := Last(run).counters, C.Min(max, Last(run).counters.tail - Last(run).counters.head);
      && Last(run').counters.head == c.head + n
      && forall j: nat :: j in Last(run').store.finished <==>
                          j in Last(run).store.finished || c.head <= j < c.head + n
  {
    var c := Last(run).counters;
    NothingBeyondHead(run);
    var run1 := ClaimGoesThrough(run, t, max);
    var run2 := MovesOut(run1, t, c.head);
    var s := Last(run2);
    var s' := s.(counters := C.Advance(s.counters, t));
    assert C.Dequeues(s.counters, t, s'.counters);
    RunSafe(run2, |run2| - 1);
    assert Counts(s, t, s');
    run' := Goes(run2, s');
    assert s'.counters.threads == c.threads;
  }

  lemma NothingBeyondHead<T(!new)>(run: seq<State<T>>)
    requires Run(run)
    ensures forall j | j in Last(run).store.finished :: j < Last(run).counters.head
  {
    RunSafe(run, |run| - 1);
    ItemsOfOk(Last(run).store);
  }
}
