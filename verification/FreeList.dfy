/** The queue's lock-free free list, as the atomic steps of any number of threads.

    Every load, store, `fetch_add` and compare-and-swap of `add`, `try_get` and
    `add_knowing_refcount_is_zero` is one step. `State` holds only what the program
    holds; the location of each node and the order of the list are witnesses of the
    invariant, never part of the state.
 */
module FreeList {
  const SHOULD_BE_ON_FREELIST: int := 0x8000_0000

  // `refs & REFS_MASK` of a 32-bit word: the word without its top bit.
  function Count(refs: int): int {
    if refs >= SHOULD_BE_ON_FREELIST then refs - SHOULD_BE_ON_FREELIST else refs
  }

  datatype Ptr = Null | Ptr(node: nat)

  // What `add_knowing_refcount_is_zero` does when it is done: return from `add`, or go on
  // with the loop of `try_get`, whose local `head` is kept here.
  datatype Continuation = Return | Resume(head: Ptr)

  datatype Pc =
    | Idle
    // add_knowing_refcount_is_zero(node)
    | AddLoad(node: nat, k: Continuation)
    | AddNext(node: nat, head: Ptr, k: Continuation)
    | AddRefs(node: nat, head: Ptr, k: Continuation)
    | AddCas(node: nat, head: Ptr, k: Continuation)
    | AddRetry(node: nat, head: Ptr, k: Continuation)
    // try_get()
    | GetLoad
    | GetRefs(node: nat)
    | GetAcquire(node: nat, seen: int)
    | GetNext(node: nat)
    | GetCas(node: nat, next: Ptr)
    | GetTake(node: nat)
    | GetDrop(node: nat, head: Ptr)

  datatype State = State(
    head: Ptr,
    refs: seq<int>,
    next: seq<Ptr>,
    owned: set<nat>, // nodes in the hands of the queue's clients
    threads: seq<Pc>
  )

  predicate WellFormed(s: State) {
    |s.refs| == |s.next|
  }

  function Nodes(s: State): nat { |s.refs| }

  predicate ValidPtr(s: State, p: Ptr) {
    p.Ptr? ==> p.node < Nodes(s)
  }

  // The nodes named by a thread's local variables exist.
  predicate ValidPc(s: State, pc: Pc) {
    match pc
    case Idle | GetLoad => true
    case AddLoad(n, k) => n < Nodes(s) && (k.Resume? ==> ValidPtr(s, k.head))
    case AddNext(n, h, k) => n < Nodes(s) && ValidPtr(s, h) && (k.Resume? ==> ValidPtr(s, k.head))
    case AddRefs(n, h, k) => n < Nodes(s) && ValidPtr(s, h) && (k.Resume? ==> ValidPtr(s, k.head))
    case AddCas(n, h, k) => n < Nodes(s) && ValidPtr(s, h) && (k.Resume? ==> ValidPtr(s, k.head))
    case AddRetry(n, h, k) => n < Nodes(s) && ValidPtr(s, h) && (k.Resume? ==> ValidPtr(s, k.head))
    case GetRefs(n) => n < Nodes(s)
    case GetAcquire(n, _) => n < Nodes(s)
    case GetNext(n) => n < Nodes(s)
    case GetCas(n, nx) => n < Nodes(s) && ValidPtr(s, nx)
    case GetTake(n) => n < Nodes(s)
    case GetDrop(n, h) => n < Nodes(s) && ValidPtr(s, h)
  }

  // The test `while (head != nullptr)` of try_get.
  function LoopHead(head: Ptr): Pc {
    match head
    case Null => Idle
    case Ptr(n) => GetRefs(n)
  }

  function Continue(k: Continuation): Pc {
    match k
    case Return => Idle
    case Resume(h) => LoopHead(h)
  }

  function Goto(s: State, t: nat, pc: Pc): State
    requires t < |s.threads|
  {
    s.(threads := s.threads[t := pc])
  }

  // `add(n)`: hand the node over and set its should-be-on-freelist bit.
  function StartAdd(s: State, t: nat, n: nat): State
    requires t < |s.threads| && n < Nodes(s)
  {
    var old_ := s.refs[n];
    s.(refs := s.refs[n := old_ + SHOULD_BE_ON_FREELIST],
       owned := s.owned - {n},
       threads := s.threads[t := if old_ == 0 then AddLoad(n, Return) else Idle])
  }

  // One atomic step of a thread that is inside `add` or `try_get`.
  function Advance(s: State, t: nat): State
    requires WellFormed(s) && t < |s.threads| && ValidPc(s, s.threads[t])
  {
    match s.threads[t]
    case Idle => s
    case AddLoad(n, k) => Goto(s, t, AddNext(n, s.head, k))
    case AddNext(n, h, k) => Goto(s, t, AddRefs(n, h, k)).(next := s.next[n := h])
    case AddRefs(n, h, k) => Goto(s, t, AddCas(n, h, k)).(refs := s.refs[n := 1])
    case AddCas(n, h, k) =>
      if s.head == h then Goto(s, t, Continue(k)).(head := Ptr(n))
      else Goto(s, t, AddRetry(n, s.head, k))
    case AddRetry(n, h, k) =>
      Goto(s, t, if s.refs[n] == 1 then AddNext(n, h, k) else Continue(k))
      .(refs := s.refs[n := s.refs[n] + SHOULD_BE_ON_FREELIST - 1])
    case GetLoad => Goto(s, t, LoopHead(s.head))
    case GetRefs(n) => Goto(s, t, GetAcquire(n, s.refs[n]))
    case GetAcquire(n, seen) =>
      if Count(seen) == 0 || s.refs[n] != seen then Goto(s, t, GetLoad)
      else Goto(s, t, GetNext(n)).(refs := s.refs[n := seen + 1])
    case GetNext(n) => Goto(s, t, GetCas(n, s.next[n]))
    case GetCas(n, nx) =>
      if s.head == Ptr(n) then Goto(s, t, GetTake(n)).(head := nx)
      else Goto(s, t, GetDrop(n, s.head))
    case GetTake(n) =>
      Goto(s, t, Idle).(refs := s.refs[n := s.refs[n] - 2], owned := s.owned + {n})
    case GetDrop(n, h) =>
      Goto(s, t, if s.refs[n] == SHOULD_BE_ON_FREELIST + 1 then AddLoad(n, Resume(h)) else LoopHead(h))
      .(refs := s.refs[n := s.refs[n] - 1])
  }

  ghost predicate Step(s: State, t: nat, s': State) {
    && WellFormed(s) && t < |s.threads| && ValidPc(s, s.threads[t])
    && match s.threads[t]
       case Idle =>
         || s' == Goto(s, t, GetLoad)
         || exists n :: n in s.owned && n < Nodes(s) && s' == StartAdd(s, t, n)
       case _ => s' == Advance(s, t)
  }

  // Initially the clients hold every node; the 31-bit count has room for every thread.
  ghost predicate Init(s: State) {
    && WellFormed(s)
    && s.head == Null
    && (forall n :: n in s.owned <==> 0 <= n < Nodes(s))
    && (forall n | 0 <= n < Nodes(s) :: s.refs[n] == 0)
    && (forall n | 0 <= n < Nodes(s) :: s.next[n] == Null)
    && (forall t | 0 <= t < |s.threads| :: s.threads[t] == Idle)
    && |s.threads| + 1 < SHOULD_BE_ON_FREELIST
  }

  ghost predicate SomeStep(s: State, s': State) {
    exists t :: Step(s, t, s')
  }

  ghost predicate StepAt(b: seq<State>, i: nat)
    requires i + 1 < |b|
  {
    SomeStep(b[i], b[i + 1])
  }

  ghost predicate Run(b: seq<State>) {
    && |b| > 0
    && Init(b[0])
    && forall i | 0 <= i < |b| - 1 :: StepAt(b, i)
  }

  // Every operation has returned.
  predicate Quiescent(s: State) {
    forall t | 0 <= t < |s.threads| :: s.threads[t] == Idle
  }

  // ---- Holders of a node: threads between taking a reference and giving it back ----

  predicate Holds(pc: Pc, n: nat) {
    match pc
    case GetNext(m) => m == n
    case GetCas(m, _) => m == n
    case GetTake(m) => m == n
    case GetDrop(m, _) => m == n
    case _ => false
  }

  function Holders(threads: seq<Pc>, n: nat): (c: nat)
    ensures c <= |threads|
  {
    if threads == [] then 0
    else Holders(threads[..|threads| - 1], n) + (if Holds(threads[|threads| - 1], n) then 1 else 0)
  }

  function One(b: bool): nat { if b then 1 else 0 }

  lemma {:induction false} HoldersUpdate(threads: seq<Pc>, t: nat, pc: Pc, n: nat)
    requires t < |threads|
    ensures Holders(threads[t := pc], n) + One(Holds(threads[t], n)) == Holders(threads, n) + One(Holds(pc, n))
  {
    var last := |threads| - 1;
    if t == last {
      assert threads[t := pc][..last] == threads[..last];
    } else {
      assert threads[t := pc][..last] == threads[..last][t := pc];
      HoldersUpdate(threads[..last], t, pc, n);
    }
  }

  lemma {:induction false} HolderCounts(threads: seq<Pc>, t: nat, n: nat)
    requires t < |threads| && Holds(threads[t], n)
    ensures Holders(threads, n) >= 1
  {
    if t < |threads| - 1 {
      HolderCounts(threads[..|threads| - 1], t, n);
    }
  }

  lemma {:induction false} HolderExists(threads: seq<Pc>, n: nat) returns (t: nat)
    requires Holders(threads, n) >= 1
    ensures t < |threads| && Holds(threads[t], n)
  {
    if Holds(threads[|threads| - 1], n) {
      t := |threads| - 1;
    } else {
      t := HolderExists(threads[..|threads| - 1], n);
    }
  }

  lemma {:induction false} NoHolders(threads: seq<Pc>, n: nat)
    requires forall t | 0 <= t < |threads| :: threads[t] == Idle
    ensures Holders(threads, n) == 0
  {
    if threads != [] {
      NoHolders(threads[..|threads| - 1], n);
    }
  }

  // ---- The invariant ----

  // Where a node is. `Taken` and `Adding` name the one thread responsible for it; a `Parked`
  // node waits for the last of its holders, who will put it on the list.
  datatype Loc = Owned | Listed | Taken(thread: nat) | Adding(thread: nat) | Parked

  predicate AddsBeforeRefs(pc: Pc, n: nat) {
    match pc
    case AddLoad(m, _) => m == n
    case AddNext(m, _, _) => m == n
    case AddRefs(m, _, _) => m == n
    case _ => false
  }

  predicate AddsAfterRefs(pc: Pc, n: nat) {
    match pc
    case AddCas(m, _, _) => m == n
    case AddRetry(m, _, _) => m == n
    case _ => false
  }

  predicate Adds(pc: Pc, n: nat) {
    AddsBeforeRefs(pc, n) || AddsAfterRefs(pc, n)
  }

  // The reference word of node n is accounted for by its location and its holders.
  predicate NodeOk(s: State, loc: Loc, n: nat)
    requires n < Nodes(s)
  {
    var h := Holders(s.threads, n);
    match loc
    case Owned => s.refs[n] == h
    case Listed => s.refs[n] == 1 + h
    case Taken(t) => t < |s.threads| && s.threads[t] == GetTake(n) && s.refs[n] == 1 + h
    case Adding(t) =>
      && t < |s.threads|
      && Adds(s.threads[t], n)
      && (AddsBeforeRefs(s.threads[t], n) ==> h == 0 && s.refs[n] == SHOULD_BE_ON_FREELIST)
      && (AddsAfterRefs(s.threads[t], n) ==> s.refs[n] == 1 + h)
    case Parked => h >= 1 && s.refs[n] == SHOULD_BE_ON_FREELIST + h
  }

  // What a thread's program counter entitles it to rely on.
  predicate ThreadOk(s: State, loc: seq<Loc>, t: nat, pc: Pc)
    requires WellFormed(s) && |loc| == Nodes(s)
  {
    && ValidPc(s, pc)
    && match pc
       case AddLoad(n, _) => loc[n] == Adding(t)
       case AddNext(n, _, _) => loc[n] == Adding(t)
       case AddRefs(n, h, _) => loc[n] == Adding(t) && s.next[n] == h
       case AddCas(n, h, _) => loc[n] == Adding(t) && s.next[n] == h
       case AddRetry(n, _, _) => loc[n] == Adding(t)
       case GetCas(n, nx) => s.next[n] == nx // a held node's next pointer cannot change
       case GetTake(n) => loc[n] == Taken(t)
       case _ => true
  }

  predicate Distinct(list: seq<nat>) {
    forall i, j | 0 <= i < j < |list| :: list[i] != list[j]
  }

  function After(list: seq<nat>, i: nat): Ptr {
    if i + 1 < |list| then Ptr(list[i + 1]) else Null
  }

  // `list` is what one reads by following `next` from `head`: no cycle, ended by null.
  predicate Chain(s: State, list: seq<nat>)
    requires WellFormed(s)
  {
    && (forall i | 0 <= i < |list| :: list[i] < Nodes(s))
    && Distinct(list)
    && s.head == (if list == [] then Null else Ptr(list[0]))
    && forall i | 0 <= i < |list| :: s.next[list[i]] == After(list, i)
  }

  ghost predicate Inv(s: State, loc: seq<Loc>, list: seq<nat>) {
    && WellFormed(s)
    && |loc| == Nodes(s)
    && |s.threads| + 1 < SHOULD_BE_ON_FREELIST
    && (forall n | 0 <= n < Nodes(s) :: ValidPtr(s, s.next[n]))
    && (forall n | 0 <= n < Nodes(s) :: NodeOk(s, loc[n], n))
    && (forall t | 0 <= t < |s.threads| :: ThreadOk(s, loc, t, s.threads[t]))
    && (forall n :: n in s.owned <==> 0 <= n < Nodes(s) && loc[n] == Owned)
    && Chain(s, list)
    && (forall n | 0 <= n < Nodes(s) :: n in list <==> loc[n] == Listed)
  }

  ghost predicate Safe(s: State) {
    exists loc, list :: Inv(s, loc, list)
  }

  lemma ChainPush(s: State, s': State, list: seq<nat>, n: nat)
    requires WellFormed(s) && Chain(s, list) && n < Nodes(s) && n !in list
    requires s.next[n] == s.head && s' == s.(head := Ptr(n), threads := s'.threads)
    ensures Chain(s', [n] + list)
    ensures forall m :: m in [n] + list <==> m == n || m in list
  {
    var list' := [n] + list;
    forall i | 0 <= i < |list'|
      ensures list'[i] < Nodes(s) && s'.next[list'[i]] == After(list', i)
    {
      assert i > 0 ==> list'[i] == list[i - 1] && After(list', i) == After(list, i - 1);
    }
  }

  lemma ChainPop(s: State, s': State, list: seq<nat>)
    requires WellFormed(s) && Chain(s, list) && list != []
    requires s' == s.(head := s.next[list[0]], threads := s'.threads)
    ensures Chain(s', list[1..])
    ensures forall n :: n in list[1..] <==> n in list && n != list[0]
  {
    assert list == [list[0]] + list[1..];
    var list' := list[1..];
    forall i | 0 <= i < |list'|
      ensures list'[i] < Nodes(s) && s'.next[list'[i]] == After(list', i)
    {
      assert list'[i] == list[i + 1] && After(list', i) == After(list, i + 1);
    }
  }

  lemma ContinuationIsFree(k: Continuation, h: Ptr)
    ensures forall n: nat :: !Holds(Continue(k), n) && !Adds(Continue(k), n)
    ensures forall n: nat :: !Holds(LoopHead(h), n) && !Adds(LoopHead(h), n)
  {
  }

  // The nodes a program counter is responsible for or holds.
  predicate Concerns(pc: Pc, n: nat) {
    Holds(pc, n) || Adds(pc, n)
  }

  predicate AnotherThreads(loc: Loc, t: nat) {
    (loc.Adding? || loc.Taken?) && loc.thread != t
  }

  // A step of thread t touches no node but n, which moves to location l.
  predicate Touches(s: State, t: nat, n: nat, s': State, loc: seq<Loc>, l: Loc) {
    && t < |s.threads| && n < Nodes(s) && |loc| == Nodes(s) && WellFormed(s)
    && |s'.threads| == |s.threads| && s'.threads == s.threads[t := s'.threads[t]]
    && |s'.refs| == |s.refs| && s'.refs == s.refs[n := s'.refs[n]]
    && |s'.next| == |s.next| && s'.next == s.next[n := s'.next[n]]
    && (l == loc[n] || !AnotherThreads(loc[n], t))
    && (s'.next[n] == s.next[n] || (loc[n] == Adding(t) && Holders(s.threads, n) == 0))
  }

  lemma OtherNode(s: State, t: nat, n: nat, s': State, loc: seq<Loc>, l: Loc, m: nat)
    requires Touches(s, t, n, s', loc, l) && m < Nodes(s) && m != n
    requires !Concerns(s.threads[t], m) && !Concerns(s'.threads[t], m)
    requires NodeOk(s, loc[m], m)
    ensures NodeOk(s', loc[m], m)
  {
    HoldersUpdate(s.threads, t, s'.threads[t], m);
  }

  lemma OtherThread(s: State, t: nat, n: nat, s': State, loc: seq<Loc>, l: Loc, t': nat)
    requires Touches(s, t, n, s', loc, l) && t' < |s.threads| && t' != t
    requires ThreadOk(s, loc, t', s.threads[t'])
    ensures ThreadOk(s', loc[n := l], t', s.threads[t'])
  {
    if Holds(s.threads[t'], n) {
      HolderCounts(s.threads, t', n);
    }
  }

  lemma Frame(s: State, t: nat, n: nat, s': State, loc: seq<Loc>, l: Loc, list: seq<nat>, list': seq<nat>)
    requires Inv(s, loc, list) && Touches(s, t, n, s', loc, l)
    requires forall m: nat :: Concerns(s.threads[t], m) || Concerns(s'.threads[t], m) ==> m == n
    requires ValidPtr(s, s'.next[n])
    requires NodeOk(s', l, n)
    requires ThreadOk(s', loc[n := l], t, s'.threads[t])
    requires s'.owned == (if l == Owned then s.owned + {n} else s.owned - {n})
    requires Chain(s', list')
    requires forall m :: m in list' <==> (if m == n then l == Listed else m in list)
    ensures Safe(s')
  {
    var loc' := loc[n := l];
    forall m | 0 <= m < Nodes(s) && m != n ensures NodeOk(s', loc'[m], m) {
      OtherNode(s, t, n, s', loc, l, m);
    }
    forall t' | 0 <= t' < |s.threads| && t' != t ensures ThreadOk(s', loc', t', s'.threads[t']) {
      OtherThread(s, t, n, s', loc, l, t');
    }
    assert Inv(s', loc', list');
  }

  // A step that changes no node, no list and no reference held, only a program counter.
  lemma LocalStep(s: State, t: nat, pc: Pc, loc: seq<Loc>, list: seq<nat>)
    requires Inv(s, loc, list) && t < |s.threads|
    requires forall n: nat :: Holds(pc, n) == Holds(s.threads[t], n)
    requires forall n: nat :: AddsBeforeRefs(pc, n) == AddsBeforeRefs(s.threads[t], n)
    requires forall n: nat :: AddsAfterRefs(pc, n) == AddsAfterRefs(s.threads[t], n)
    requires !s.threads[t].GetTake?
    requires ThreadOk(Goto(s, t, pc), loc, t, pc)
    ensures Inv(Goto(s, t, pc), loc, list)
  {
    var s' := Goto(s, t, pc);
    forall n | 0 <= n < Nodes(s) ensures NodeOk(s', loc[n], n) {
      HoldersUpdate(s.threads, t, pc, n);
      assert NodeOk(s, loc[n], n);
    }
    forall t' | 0 <= t' < |s.threads| && t' != t ensures ThreadOk(s', loc, t', s'.threads[t']) {
      assert ThreadOk(s, loc, t', s.threads[t']);
    }
  }

  // add(): the node leaves its owner; if nobody holds it this thread lists it, else it is parked.
  lemma StartAddPreserves(s: State, t: nat, n: nat, loc: seq<Loc>, list: seq<nat>)
    requires Inv(s, loc, list) && t < |s.threads| && s.threads[t] == Idle
    requires n in s.owned
    ensures n < Nodes(s) && Safe(StartAdd(s, t, n))
  {
    var s' := StartAdd(s, t, n);
    HoldersUpdate(s.threads, t, s'.threads[t], n);
    assert NodeOk(s, loc[n], n);
    Frame(s, t, n, s', loc, if s.refs[n] == 0 then Adding(t) else Parked, list, list);
  }

  lemma AddNextPreserves(s: State, t: nat, loc: seq<Loc>, list: seq<nat>)
    requires Inv(s, loc, list) && t < |s.threads| && s.threads[t].AddNext?
    requires ThreadOk(s, loc, t, s.threads[t])
    ensures Safe(Advance(s, t))
  {
    var n, s' := s.threads[t].node, Advance(s, t);
    HoldersUpdate(s.threads, t, s'.threads[t], n);
    assert NodeOk(s, loc[n], n);
    forall i | 0 <= i < |list| ensures s'.next[list[i]] == After(list, i) {
      assert list[i] in list;
    }
    Frame(s, t, n, s', loc, loc[n], list, list);
  }

  lemma AddRefsPreserves(s: State, t: nat, loc: seq<Loc>, list: seq<nat>)
    requires Inv(s, loc, list) && t < |s.threads| && s.threads[t].AddRefs?
    requires ThreadOk(s, loc, t, s.threads[t])
    ensures Safe(Advance(s, t))
  {
    var n, s' := s.threads[t].node, Advance(s, t);
    HoldersUpdate(s.threads, t, s'.threads[t], n);
    assert NodeOk(s, loc[n], n);
    Frame(s, t, n, s', loc, loc[n], list, list);
  }

  // The successful exchange puts the node in front of the list, ...
  lemma AddCasLists(s: State, t: nat, loc: seq<Loc>, list: seq<nat>)
    requires Inv(s, loc, list) && t < |s.threads| && s.threads[t].AddCas?
    requires ThreadOk(s, loc, t, s.threads[t]) && s.head == s.threads[t].head
    ensures var n := s.threads[t].node;
            n !in list && n !in s.owned && Chain(Advance(s, t), [n] + list) &&
            forall m :: m in [n] + list <==> m == n || m in list
  {
    var n := s.threads[t].node;
    assert loc[n] == Adding(t);
    ChainPush(s, Advance(s, t), list, n);
  }

  // ... where it is counted as listed.
  lemma AddCasCounts(s: State, t: nat, loc: seq<Loc>, list: seq<nat>)
    requires Inv(s, loc, list) && t < |s.threads| && s.threads[t].AddCas?
    requires ThreadOk(s, loc, t, s.threads[t]) && s.head == s.threads[t].head
    ensures NodeOk(Advance(s, t), Listed, s.threads[t].node)
    ensures Touches(s, t, s.threads[t].node, Advance(s, t), loc, Listed)
  {
    var n, s' := s.threads[t].node, Advance(s, t);
    HoldersUpdate(s.threads, t, s'.threads[t], n);
    assert NodeOk(s, loc[n], n);
    ContinuationIsFree(s.threads[t].k, Null);
  }

  lemma AddCasPreserves(s: State, t: nat, loc: seq<Loc>, list: seq<nat>)
    requires Inv(s, loc, list) && t < |s.threads| && s.threads[t].AddCas?
    requires ThreadOk(s, loc, t, s.threads[t]) && s.head == s.threads[t].head
    ensures Safe(Advance(s, t))
  {
    var n := s.threads[t].node;
    AddCasLists(s, t, loc, list);
    AddCasCounts(s, t, loc, list);
    ContinuationIsFree(s.threads[t].k, Null);
    Frame(s, t, n, Advance(s, t), loc, Listed, list, [n] + list);
  }

  lemma AddRetryPreserves(s: State, t: nat, loc: seq<Loc>, list: seq<nat>)
    requires Inv(s, loc, list) && t < |s.threads| && s.threads[t].AddRetry?
    requires ThreadOk(s, loc, t, s.threads[t])
    ensures Safe(Advance(s, t))
  {
    var n, s' := s.threads[t].node, Advance(s, t);
    HoldersUpdate(s.threads, t, s'.threads[t], n);
    assert NodeOk(s, loc[n], n);
    ContinuationIsFree(s.threads[t].k, Null);
    assert n !in list && n !in s.owned;
    if s.refs[n] == 1 {
      assert NodeOk(s', Adding(t), n);
      Frame(s, t, n, s', loc, Adding(t), list, list);
    } else {
      assert NodeOk(s', Parked, n);
      Frame(s, t, n, s', loc, Parked, list, list);
    }
  }

  // The reference is taken on an unchanged, non-zero count, so the node is not being added.
  lemma AcquirePreserves(s: State, t: nat, loc: seq<Loc>, list: seq<nat>)
    requires Inv(s, loc, list) && t < |s.threads| && s.threads[t].GetAcquire?
    requires ThreadOk(s, loc, t, s.threads[t])
    ensures Safe(Advance(s, t))
  {
    var pc, s' := s.threads[t], Advance(s, t);
    var n := pc.node;
    HoldersUpdate(s.threads, t, s'.threads[t], n);
    assert NodeOk(s, loc[n], n);
    Frame(s, t, n, s', loc, loc[n], list, list);
  }

  lemma GetCasPreserves(s: State, t: nat, loc: seq<Loc>, list: seq<nat>)
    requires Inv(s, loc, list) && t < |s.threads| && s.threads[t].GetCas?
    requires ThreadOk(s, loc, t, s.threads[t]) && s.head == Ptr(s.threads[t].node)
    ensures Safe(Advance(s, t))
  {
    var n, s' := s.threads[t].node, Advance(s, t);
    HoldersUpdate(s.threads, t, s'.threads[t], n);
    assert NodeOk(s, loc[n], n) && list[0] == n;
    ChainPop(s, s', list);
    Frame(s, t, n, s', loc, Taken(t), list, list[1..]);
  }

  lemma GetTakePreserves(s: State, t: nat, loc: seq<Loc>, list: seq<nat>)
    requires Inv(s, loc, list) && t < |s.threads| && s.threads[t].GetTake?
    requires ThreadOk(s, loc, t, s.threads[t])
    ensures Safe(Advance(s, t))
  {
    var n, s' := s.threads[t].node, Advance(s, t);
    HoldersUpdate(s.threads, t, s'.threads[t], n);
    assert NodeOk(s, loc[n], n);
    Frame(s, t, n, s', loc, Owned, list, list);
  }

  // The last holder of a parked node becomes responsible for it.
  lemma GetDropPreserves(s: State, t: nat, loc: seq<Loc>, list: seq<nat>)
    requires Inv(s, loc, list) && t < |s.threads| && s.threads[t].GetDrop?
    requires ThreadOk(s, loc, t, s.threads[t])
    ensures Safe(Advance(s, t))
  {
    var n, s' := s.threads[t].node, Advance(s, t);
    HoldersUpdate(s.threads, t, s'.threads[t], n);
    HolderCounts(s.threads, t, n);
    assert NodeOk(s, loc[n], n);
    ContinuationIsFree(Return, s.threads[t].head);
    Frame(s, t, n, s', loc, if s.refs[n] == SHOULD_BE_ON_FREELIST + 1 then Adding(t) else loc[n], list, list);
  }

  lemma StepPreserves(s: State, t: nat, s': State)
    requires Safe(s) && Step(s, t, s')
    ensures Safe(s')
  {
    var loc: seq<Loc>, list :| Inv(s, loc, list);
    assert ThreadOk(s, loc, t, s.threads[t]);
    match s.threads[t] {
      case Idle =>
        if s' == Goto(s, t, GetLoad) {
          LocalStep(s, t, GetLoad, loc, list);
        } else {
          var n :| n in s.owned && n < Nodes(s) && s' == StartAdd(s, t, n);
          StartAddPreserves(s, t, n, loc, list);
        }
      case AddLoad(_, _) => LocalStep(s, t, s'.threads[t], loc, list);
      case AddNext(_, _, _) => AddNextPreserves(s, t, loc, list);
      case AddRefs(_, _, _) => AddRefsPreserves(s, t, loc, list);
      case AddCas(_, h, _) =>
        if s.head == h { AddCasPreserves(s, t, loc, list); } else { LocalStep(s, t, s'.threads[t], loc, list); }
      case AddRetry(_, _, _) => AddRetryPreserves(s, t, loc, list);
      case GetLoad => LocalStep(s, t, s'.threads[t], loc, list);
      case GetRefs(_) => LocalStep(s, t, s'.threads[t], loc, list);
      case GetAcquire(_, _) => AcquirePreserves(s, t, loc, list);
      case GetNext(_) => LocalStep(s, t, s'.threads[t], loc, list);
      case GetCas(n, _) =>
        if s.head == Ptr(n) { GetCasPreserves(s, t, loc, list); } else { LocalStep(s, t, s'.threads[t], loc, list); }
      case GetTake(_) => GetTakePreserves(s, t, loc, list);
      case GetDrop(_, _) => GetDropPreserves(s, t, loc, list);
    }
  }

  lemma SomeStepPreserves(s: State, s': State)
    requires Safe(s) && SomeStep(s, s')
    ensures Safe(s')
  {
    var t :| Step(s, t, s');
    StepPreserves(s, t, s');
  }

  // ---- Main results ----

  lemma InitSafe(s: State)
    requires Init(s)
    ensures Safe(s)
  {
    var loc := seq(Nodes(s), _ => Owned);
    forall n | 0 <= n < Nodes(s) ensures NodeOk(s, loc[n], n) {
      NoHolders(s.threads, n);
    }
    assert Inv(s, loc, []);
  }

  lemma RunStep(b: seq<State>, i: nat)
    requires Run(b) && i + 1 < |b| && Safe(b[i])
    ensures Safe(b[i + 1])
  {
    assert StepAt(b, i);
    SomeStepPreserves(b[i], b[i + 1]);
  }

  lemma RunStarts(b: seq<State>)
    requires Run(b)
    ensures Safe(b[0])
  {
    InitSafe(b[0]);
  }

  lemma RunSafe(b: seq<State>, i: nat)
    requires Run(b) && i < |b|
    ensures Safe(b[i])
  {
    RunStarts(b);
    var p := (k: nat) => k < |b| && Safe(b[k]);
    forall k: nat | k < |b| - 1 && p(k) ensures p(k + 1) {
      RunStep(b, k);
    }
    Induction(|b| - 1, i, p);
  }

  lemma {:induction false} Induction(n: nat, k: nat, p: nat -> bool)
    requires k <= n && p(0) && forall i: nat | i < n && p(i) :: p(i + 1)
    ensures p(k)
  {
    if k > 0 {
      Induction(n, k - 1, p);
      assert k - 1 + 1 == k;
    }
  }

  /** A thread that has just taken a node off the list is the only one to have taken it, no client
      owns it, the source's assertion (its should-be-on-freelist bit is clear) holds, and giving
      back two references cannot underflow. */
  lemma TakenNodeIsExclusive(b: seq<State>, i: nat, t: nat)
    requires Run(b) && i < |b|
    requires t < |b[i].threads| && b[i].threads[t].GetTake?
    ensures var s, n := b[i], b[i].threads[t].node;
      && n < Nodes(s)
      && n !in s.owned
      && 2 <= s.refs[n] < SHOULD_BE_ON_FREELIST
      && (forall t' | 0 <= t' < |s.threads| && t' != t :: s.threads[t'] != GetTake(n) && !Adds(s.threads[t'], n))
  {
    RunSafe(b, i);
    var s, n := b[i], b[i].threads[t].node;
    var loc: seq<Loc>, list :| Inv(s, loc, list);
    assert ThreadOk(s, loc, t, s.threads[t]) && NodeOk(s, loc[n], n);
    HolderCounts(s.threads, t, n);
    forall t' | 0 <= t' < |s.threads| && t' != t ensures s.threads[t'] != GetTake(n) && !Adds(s.threads[t'], n) {
      assert ThreadOk(s, loc, t', s.threads[t']);
    }
  }

  // A thread has the node off the list but its list reference is still counted, or has counted it
  // already and is about to put the node on the list.
  predicate InTransit(threads: seq<Pc>, n: nat) {
    exists t :: 0 <= t < |threads| && (threads[t] == GetTake(n) || AddsAfterRefs(threads[t], n))
  }

  /** The reference word never overflows or underflows 32 bits, and its low 31 bits are exactly the
      threads holding the node, plus one if the node is on the list or some thread is moving it there
      or away. */
  lemma RefsAreCounted(b: seq<State>, i: nat, n: nat) returns (list: seq<nat>)
    requires Run(b) && i < |b| && n < Nodes(b[i])
    ensures WellFormed(b[i]) && Chain(b[i], list) && 0 <= b[i].refs[n] < 0x1_0000_0000
    ensures Count(b[i].refs[n]) == Holders(b[i].threads, n) + One(n in list || InTransit(b[i].threads, n))
    ensures !(n in list && InTransit(b[i].threads, n))
  {
    RunSafe(b, i);
    var s := b[i];
    var loc: seq<Loc>, l :| Inv(s, loc, l);
    list := l;
    assert NodeOk(s, loc[n], n);
    if InTransit(s.threads, n) {
      var t :| 0 <= t < |s.threads| && (s.threads[t] == GetTake(n) || AddsAfterRefs(s.threads[t], n));
      assert ThreadOk(s, loc, t, s.threads[t]);
    }
  }

  /** No released node is lost: a node that no client owns is on the (acyclic) list, or some thread is
      still inside `add` or `try_get` with it in hand. */
  lemma NoNodeIsLost(b: seq<State>, i: nat) returns (list: seq<nat>)
    requires Run(b) && i < |b|
    ensures WellFormed(b[i]) && Chain(b[i], list)
    ensures forall n | n in list :: n !in b[i].owned
    ensures forall n | 0 <= n < Nodes(b[i]) && n !in b[i].owned && n !in list ::
      exists t :: 0 <= t < |b[i].threads| && (Holds(b[i].threads[t], n) || Adds(b[i].threads[t], n))
  {
    RunSafe(b, i);
    var s := b[i];
    var loc: seq<Loc>, l :| Inv(s, loc, l);
    list := l;
    forall n | 0 <= n < Nodes(s) && n !in s.owned && n !in list
      ensures exists t :: 0 <= t < |s.threads| && (Holds(s.threads[t], n) || Adds(s.threads[t], n))
    {
      assert NodeOk(s, loc[n], n);
      if loc[n].Parked? {
        var t := HolderExists(s.threads, n);
      }
    }
  }

  /** When every operation has returned, the list holds each unowned node exactly once and nothing else,
      with reference count one; owned nodes have count zero. */
  lemma QuiescentListIsComplete(b: seq<State>, i: nat) returns (list: seq<nat>)
    requires Run(b) && i < |b|
    requires Quiescent(b[i])
    ensures WellFormed(b[i]) && Chain(b[i], list)
    ensures forall n | 0 <= n < Nodes(b[i]) :: n in list <==> n !in b[i].owned
    ensures forall n | 0 <= n < Nodes(b[i]) :: b[i].refs[n] == (if n in list then 1 else 0)
  {
    RunSafe(b, i);
    var s := b[i];
    var loc: seq<Loc>, l :| Inv(s, loc, l);
    list := l;
    forall n | 0 <= n < Nodes(s)
      ensures loc[n] == Owned || loc[n] == Listed
      ensures s.refs[n] == (if n in list then 1 else 0)
    {
      assert NodeOk(s, loc[n], n);
      NoHolders(s.threads, n);
    }
  }

  // ---- Undisturbed calls ----

  ghost function Last(b: seq<State>): State
    requires |b| > 0
  {
    b[|b| - 1]
  }

  // b' is b with more steps, all of them thread t's.
  ghost predicate Continues(b: seq<State>, t: nat, b': seq<State>) {
    Run(b') && b <= b' && forall i: nat | |b| - 1 <= i < |b'| - 1 :: OwnStep(b', i, t)
  }

  ghost predicate OwnStep(b: seq<State>, i: nat, t: nat)
    requires i + 1 < |b|
  {
    Step(b[i], t, b[i + 1])
  }

  lemma Goes(b0: seq<State>, b: seq<State>, t: nat, s: State)
    requires |b0| > 0 && Continues(b0, t, b) && Step(Last(b), t, s)
    ensures Continues(b0, t, b + [s]) && Last(b + [s]) == s
  {
    var b' := b + [s];
    assert SomeStep(Last(b), s);
    forall i | 0 <= i < |b'| - 1 ensures StepAt(b', i) {
      assert i < |b| - 1 ==> StepAt(b, i);
    }
    forall i: nat | |b0| - 1 <= i < |b'| - 1 ensures OwnStep(b', i, t) {
      assert i < |b| - 1 ==> OwnStep(b, i, t);
    }
  }

  lemma {:induction false} GoesAll(b0: seq<State>, b: seq<State>, t: nat, rest: seq<State>)
    requires |b0| > 0 && Continues(b0, t, b)
    requires rest != [] ==> Step(Last(b), t, rest[0])
    requires forall j | 0 <= j < |rest| - 1 :: Step(rest[j], t, rest[j + 1])
    ensures Continues(b0, t, b + rest)
    decreases |rest|
  {
    if rest == [] {
      assert b + rest == b;
    } else {
      Goes(b0, b, t, rest[0]);
      assert forall j | 0 <= j < |rest| - 1 :: rest[1..][j] == rest[j + 1];
      GoesAll(b0, b + [rest[0]], t, rest[1..]);
      assert b + [rest[0]] + rest[1..] == b + rest;
    }
  }

  // The four steps of a thread that is responsible for a node.
  lemma UndisturbedListing(s: State, t: nat, n: nat, k: Continuation) returns (rest: seq<State>)
    requires WellFormed(s) && t < |s.threads| && s.threads[t] == AddLoad(n, k) && ValidPc(s, s.threads[t])
    requires ValidPtr(s, s.head)
    ensures |rest| == 4 && Step(s, t, rest[0])
    ensures forall j | 0 <= j < 3 :: Step(rest[j], t, rest[j + 1])
    ensures rest[3] == Goto(s, t, Continue(k)).(head := Ptr(n), refs := s.refs[n := 1], next := s.next[n := s.head])
  {
    var s1 := Advance(s, t);
    var s2 := Advance(s1, t);
    var s3 := Advance(s2, t);
    var s4 := Advance(s3, t);
    rest := [s1, s2, s3, s4];
    assert s4.threads == Goto(s, t, Continue(k)).threads;
  }

  lemma HeadIsValid(b: seq<State>, t: nat)
    requires Run(b) && t < |Last(b).threads|
    ensures WellFormed(Last(b)) && ValidPtr(Last(b), Last(b).head) && ValidPc(Last(b), Last(b).threads[t])
  {
    RunSafe(b, |b| - 1);
    SafeHead(Last(b), t);
  }

  lemma SafeHead(s: State, t: nat)
    requires Safe(s) && t < |s.threads|
    ensures WellFormed(s) && ValidPtr(s, s.head) && ValidPc(s, s.threads[t])
  {
    var loc: seq<Loc>, list :| Inv(s, loc, list);
    assert ThreadOk(s, loc, t, s.threads[t]) && (list != [] ==> list[0] < Nodes(s));
  }

  lemma NodeIsListed(b0: seq<State>, b: seq<State>, t: nat, n: nat, k: Continuation) returns (b': seq<State>)
    requires |b0| > 0 && Continues(b0, t, b) && t < |Last(b).threads| && Last(b).threads[t] == AddLoad(n, k)
    ensures Continues(b0, t, b') && n < |Last(b).refs| == |Last(b).next|
    ensures Last(b') == Goto(Last(b), t, Continue(k)).(head := Ptr(n), refs := Last(b).refs[n := 1],
                                                        next := Last(b).next[n := Last(b).head])
  {
    HeadIsValid(b, t);
    var rest := UndisturbedListing(Last(b), t, n, k);
    GoesAll(b0, b, t, rest);
    b' := b + rest;
  }

  lemma ListedCount(b: seq<State>) returns (n: nat)
    requires Run(b) && Last(b).head.Ptr?
    ensures WellFormed(Last(b)) && n < Nodes(Last(b)) && Last(b).head == Ptr(n) && n !in Last(b).owned
    ensures 0 < Last(b).refs[n] < SHOULD_BE_ON_FREELIST && ValidPtr(Last(b), Last(b).next[n])
  {
    RunSafe(b, |b| - 1);
    n := SafeListed(Last(b));
  }

  lemma SafeListed(s: State) returns (n: nat)
    requires Safe(s) && s.head.Ptr?
    ensures WellFormed(s) && n < Nodes(s) && s.head == Ptr(n) && n !in s.owned
    ensures 0 < s.refs[n] < SHOULD_BE_ON_FREELIST && ValidPtr(s, s.next[n])
  {
    var loc: seq<Loc>, list :| Inv(s, loc, list);
    n := list[0];
    assert NodeOk(s, loc[n], n) && n in list;
  }

  lemma OwnedCount(b: seq<State>, n: nat)
    requires Run(b) && n in Last(b).owned
    ensures WellFormed(Last(b)) && n < Nodes(Last(b)) && Last(b).refs[n] == Holders(Last(b).threads, n)
  {
    RunSafe(b, |b| - 1);
    SafeOwned(Last(b), n);
  }

  lemma SafeOwned(s: State, n: nat)
    requires Safe(s) && n in s.owned
    ensures WellFormed(s) && n < Nodes(s) && s.refs[n] == Holders(s.threads, n)
  {
    var loc: seq<Loc>, list :| Inv(s, loc, list);
    assert loc[n] == Owned && NodeOk(s, loc[n], n);
  }

  /** From any state, an undisturbed `add` puts the node at the head of the list, unless a thread holds it:
      then it is left to the last of its holders. */
  lemma AddGoesThrough(b: seq<State>, t: nat, n: nat) returns (b': seq<State>)
    requires Run(b) && t < |Last(b).threads| && Last(b).threads[t] == Idle && n in Last(b).owned
    ensures Continues(b, t, b') && WellFormed(Last(b)) && n < Nodes(Last(b))
    ensures Last(b').threads == Last(b).threads && Last(b').owned == Last(b).owned - {n}
    ensures Holders(Last(b).threads, n) == 0 ==>
              Last(b').head == Ptr(n) && Last(b').next == Last(b).next[n := Last(b).head] &&
              Last(b').refs == Last(b).refs[n := 1]
    ensures Holders(Last(b).threads, n) > 0 ==>
              Last(b').head == Last(b).head && Last(b').next == Last(b).next &&
              Last(b').refs == Last(b).refs[n := SHOULD_BE_ON_FREELIST + Holders(Last(b).threads, n)]
  {
    var s := Last(b);
    OwnedCount(b, n);
    var s1 := StartAdd(s, t, n);
    assert Step(s, t, s1);
    Goes(b, b, t, s1);
    b' := b + [s1];
    if s.refs[n] == 0 {
      b' := NodeIsListed(b, b', t, n, Return);
      assert s1.refs[n := 1] == s.refs[n := 1];
    }
    assert Last(b').threads == s.threads;
  }

  /** The last holder of a released node can go on to list it. */
  lemma LastHolderLists(b: seq<State>, t: nat, n: nat, h: Ptr) returns (b': seq<State>)
    requires Run(b) && t < |Last(b).threads| && Last(b).threads[t] == GetDrop(n, h)
    requires n < |Last(b).refs| && Last(b).refs[n] == SHOULD_BE_ON_FREELIST + 1
    ensures Continues(b, t, b') && Last(b').head == Ptr(n)
    ensures |Last(b).next| == |Last(b).refs| && Last(b').next == Last(b).next[n := Last(b).head]
    ensures t < |Last(b').threads| && Last(b').threads[t] == LoopHead(h)
  {
    var s := Last(b);
    HeadIsValid(b, t);
    Goes(b, b, t, Advance(s, t));
    b' := NodeIsListed(b, b + [Advance(s, t)], t, n, Resume(h));
  }

  // The seven steps of a `try_get` that nobody disturbs: up to the reference, ...
  lemma UndisturbedAcquire(s: State, t: nat, n: nat) returns (rest: seq<State>)
    requires WellFormed(s) && t < |s.threads| && s.threads[t] == Idle && n < Nodes(s)
    requires s.head == Ptr(n) && 0 < s.refs[n] < SHOULD_BE_ON_FREELIST
    ensures |rest| == 4 && Step(s, t, rest[0])
    ensures forall j | 0 <= j < 3 :: Step(rest[j], t, rest[j + 1])
    ensures rest[3] == Goto(s, t, GetNext(n)).(refs := s.refs[n := s.refs[n] + 1])
  {
    var s1 := Goto(s, t, GetLoad);
    var s2 := Advance(s1, t);
    var s3 := Advance(s2, t);
    var s4 := Advance(s3, t);
    rest := [s1, s2, s3, s4];
    assert s4.threads == s.threads[t := GetNext(n)];
  }

  // ... and from there.
  lemma UndisturbedTake(s: State, t: nat, n: nat) returns (rest: seq<State>)
    requires WellFormed(s) && t < |s.threads| && s.threads[t] == GetNext(n) && n < Nodes(s)
    requires s.head == Ptr(n) && ValidPtr(s, s.next[n])
    ensures |rest| == 3 && Step(s, t, rest[0])
    ensures forall j | 0 <= j < 2 :: Step(rest[j], t, rest[j + 1])
    ensures rest[2] == Goto(s, t, Idle).(head := s.next[n], refs := s.refs[n := s.refs[n] - 2], owned := s.owned + {n})
  {
    var s1 := Advance(s, t);
    var s2 := Advance(s1, t);
    var s3 := Advance(s2, t);
    rest := [s1, s2, s3];
    assert s3.threads == s.threads[t := Idle];
  }

  /** From any state in which the list is not empty, whatever the other threads are in the middle of, a
      `try_get` that runs alone obtains the head of the list after seven steps and leaves the rest listed. */
  lemma TryGetGoesThrough(b: seq<State>, t: nat) returns (b': seq<State>)
    requires Run(b) && t < |Last(b).threads| && Last(b).threads[t] == Idle && Last(b).head.Ptr?
    ensures Continues(b, t, b') && |b'| == |b| + 7
    ensures var s := Last(b);
      && s.head.node < |s.next| && s.head.node !in s.owned
      && Last(b').owned == s.owned + {s.head.node}
      && Last(b').head == s.next[s.head.node] && Last(b').next == s.next
      && Last(b').threads == s.threads
  {
    var n := ListedCount(b);
    var first := UndisturbedAcquire(Last(b), t, n);
    GoesAll(b, b, t, first);
    var second := UndisturbedTake(first[3], t, n);
    assert Last(b + first) == first[3];
    GoesAll(b, b + first, t, second);
    b' := b + first + second;
    assert Last(b') == second[2];
  }

  /** Once every operation has returned, an unowned node is not merely accounted for: a `try_get` that
      runs alone obtains a node. */
  lemma LoneTryGetSucceeds(b: seq<State>, t: nat, n: nat) returns (b': seq<State>)
    requires Run(b) && t < |Last(b).threads| && Quiescent(Last(b))
    requires n < Nodes(Last(b)) && n !in Last(b).owned
    ensures Continues(b, t, b') && Quiescent(Last(b')) && Last(b).head.Ptr?
    ensures Last(b').owned == Last(b).owned + {Last(b).head.node} && Last(b).head.node !in Last(b).owned
  {
    var list := QuiescentListIsComplete(b, |b| - 1);
    assert n in list;
    b' := TryGetGoesThrough(b, t);
  }

  // ---- Coming away with nothing ----

  // The head that a thread inside `try_get` has read and will test next.
  function HeadRead(pc: Pc): Ptr {
    match pc
    case GetDrop(_, h) => h
    case AddLoad(_, Resume(h)) => h
    case AddNext(_, _, Resume(h)) => h
    case AddRefs(_, _, Resume(h)) => h
    case AddCas(_, _, Resume(h)) => h
    case AddRetry(_, _, Resume(h)) => h
    case _ => Ptr(0)
  }

  // Thread t read an empty list at moment j, and has been in the same call since.
  predicate ReadNull(b: seq<State>, j: nat, k: nat, t: nat) {
    && j <= k < |b| && b[j].head == Null
    && forall m | j <= m <= k :: t < |b[m].threads| && b[m].threads[t] != Idle
  }

  lemma ThreadsOfStep(s: State, t: nat, s': State)
    requires Step(s, t, s')
    ensures |s'.threads| == |s.threads| && s'.threads == s.threads[t := s'.threads[t]]
    ensures HeadRead(s'.threads[t]) == Null && HeadRead(s.threads[t]) != Null ==> s.head == Null
    ensures HeadRead(s'.threads[t]) == Null && HeadRead(s.threads[t]) != Null ==> s.threads[t] != Idle
  {
  }

  lemma {:induction false} NullWasRead(b: seq<State>, k: nat, t: nat) returns (j: nat)
    requires Run(b) && k < |b| && t < |b[k].threads| && HeadRead(b[k].threads[t]) == Null
    ensures ReadNull(b, j, k, t)
  {
    assert StepAt(b, k - 1);
    var t' :| Step(b[k - 1], t', b[k]);
    ThreadsOfStep(b[k - 1], t', b[k]);
    if HeadRead(b[k - 1].threads[t]) == Null {
      j := NullWasRead(b, k - 1, t);
    } else {
      j := k - 1;
    }
  }

  // At step k thread t's `try_get` returns without a node.
  predicate ReturnsNull(b: seq<State>, k: nat, t: nat) {
    && k + 1 < |b| && t < |b[k].threads| && t < |b[k + 1].threads|
    && (b[k].threads[t].GetLoad? || b[k].threads[t].GetRefs? || b[k].threads[t].GetAcquire? ||
        b[k].threads[t].GetNext? || b[k].threads[t].GetCas? || b[k].threads[t].GetDrop? || ResumesGet(b[k].threads[t]))
    && b[k + 1].threads[t] == Idle
  }

  predicate ResumesGet(pc: Pc) {
    (pc.AddLoad? || pc.AddNext? || pc.AddRefs? || pc.AddCas? || pc.AddRetry?) && pc.k.Resume?
  }

  /** In every interleaving, a `try_get` comes away with nothing only if the list was empty at a moment at which
      it looked: failed exchanges and nodes listed on the way never make it give up. */
  lemma NullMeansEmpty(b: seq<State>, k: nat, t: nat) returns (j: nat)
    requires Run(b) && ReturnsNull(b, k, t)
    ensures ReadNull(b, j, k, t)
  {
    assert StepAt(b, k);
    var t' :| Step(b[k], t', b[k + 1]);
    ThreadsOfStep(b[k], t', b[k + 1]);
    if b[k].threads[t].GetLoad? {
      j := k;
    } else {
      j := NullWasRead(b, k, t);
    }
  }
}
