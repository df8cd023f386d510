/** `BlockingConcurrentQueue`: a queue whose consumers first obtain a permit from a
    `LightweightSemaphore` and then insist on an element.

    Producers and consumers, any number of them, take one atomic step at a time: a change of the
    inner queue, of the semaphore's `m_count`, or of the kernel semaphore below it. How long a
    consumer spins and when a timed wait expires is left open (any step may be the one).
 */
module BlockingQueue {
  // tryWait*, wait* with a timeout, wait* without.
  datatype Mode = Try | Timed | Forever

  datatype Pc =
    | Idle
    | Signal(n: nat) // n elements are in the inner queue, m_count has not been raised yet
    | Post(r: nat) // r kernel releases to go
    | TryLoad(held: nat, max: nat, mode: Mode) // tryWaitMany(max), `held` permits already obtained
    | TryCas(held: nat, max: nat, mode: Mode, old_: int)
    | Sub(max: nat, mode: Mode) // spinning, about to fetch_sub
    | Kernel(max: nat, mode: Mode) // in the kernel semaphore's wait
    | Check(max: nat, mode: Mode) // timed out, about to load m_count
    | TryKernel(max: nat, mode: Mode)
    | Cancel(max: nat, mode: Mode, old_: int)
    | Retry(k: nat) // owed k elements by the inner queue

  // `initial` is the semaphore's initial count, 0 for a blocking queue; no step changes it.
  datatype State = State(initial: nat, size: nat, count: int, kernel: nat, threads: seq<Pc>)

  function Goto(s: State, t: nat, pc: Pc): State
    requires t < |s.threads|
  {
    s.(threads := s.threads[t := pc])
  }

  function Min(a: int, b: int): int { if a < b then a else b }

  // What is left of a positive m_count after a thread has taken up to max of it.
  function Remainder(old_: int, max: nat): int {
    if old_ > max then old_ - max else 0
  }

  // Next after tryWaitMany found no permit.
  function NoPermit(held: nat, max: nat, mode: Mode): Pc {
    if held > 0 || mode == Try || max == 0 then Retry(held) else Sub(max, mode)
  }

  // Next after one permit was obtained by waiting: greedily try for max - 1 more.
  function OnePermit(max: nat): Pc {
    if max > 1 then TryLoad(1, max - 1, Try) else Retry(1)
  }

  predicate Step(s: State, t: nat, s': State) {
    t < |s.threads| &&
    match s.threads[t]
    case Idle => BeginStep(s, t, s')
    case Signal(n) =>
      var release := Min(-s.count, n);
      s' == Goto(s, t, if release > 0 then Post(release) else Idle).(count := s.count + n)
    case Post(r) => s' == (if r == 0 then Goto(s, t, Idle) else Goto(s, t, Post(r - 1)).(kernel := s.kernel + 1))
    case TryLoad(held, max, mode) =>
      s' == Goto(s, t, if s.count > 0 then TryCas(held, max, mode, s.count) else NoPermit(held, max, mode))
    case TryCas(held, max, mode, old_) =>
      || (&& s.count == old_
          && s' == Goto(s, t, Retry(held + PositivePart(old_ - Remainder(old_, max)))).(count := Remainder(old_, max)))
      || s' == Goto(s, t, TryLoad(held, max, mode)) // the weak compare-and-swap may also fail spuriously
    case Sub(max, mode) =>
      || s' == Goto(s, t, TryLoad(0, max, mode)) // one more spin
      || s' == Goto(s, t, if s.count > 0 then OnePermit(max) else Kernel(max, mode)).(count := s.count - 1)
    case Kernel(max, mode) =>
      || (s.kernel > 0 && s' == Goto(s, t, OnePermit(max)).(kernel := s.kernel - 1))
      || s' == Goto(s, t, Check(max, mode)) // timeout, or a failed wait
    case Check(max, mode) =>
      s' == Goto(s, t, if s.count >= 0 then TryKernel(max, mode) else Cancel(max, mode, s.count))
    case TryKernel(max, mode) =>
      s' == (if s.kernel > 0 then Goto(s, t, OnePermit(max)).(kernel := s.kernel - 1)
             else Goto(s, t, Check(max, mode)))
    case Cancel(max, mode, old_) =>
      s' == (if s.count == old_
             then Goto(s, t, if mode == Forever then TryLoad(0, max, mode) else Idle).(count := old_ + 1)
             else Goto(s, t, Check(max, mode)))
    case Retry(k) =>
      if k == 0 then s' == Goto(s, t, Idle)
      else // the inner queue gives up to k elements, perhaps none although it has some
        && s'.size <= s.size && s.size - s'.size <= k
        && s' == Goto(s, t, Retry(k - (s.size - s'.size))).(size := s'.size)
  }

  function PositivePart(x: int): nat { if x < 0 then 0 else x }

  // A thread calls enqueue or enqueue_bulk (the inner queue has accepted the elements), or a dequeue.
  predicate BeginStep(s: State, t: nat, s': State)
    requires t < |s.threads|
  {
    && |s'.threads| == |s.threads|
    && match s'.threads[t]
       case Signal(n) => s' == Goto(s, t, Signal(n)).(size := s.size + n)
       case TryLoad(held, max, mode) => held == 0 && s' == Goto(s, t, TryLoad(0, max, mode))
       case _ => false
  }

  ghost predicate SomeStep(s: State, s': State) {
    exists t: nat :: Step(s, t, s')
  }

  predicate Init(s: State) {
    && s.size == s.kernel == 0 && s.count == s.initial
    && forall t | 0 <= t < |s.threads| :: s.threads[t] == Idle
  }

  ghost predicate StepAt(b: seq<State>, i: nat)
    requires i + 1 < |b|
  {
    SomeStep(b[i], b[i + 1])
  }

  ghost predicate Run(b: seq<State>) {
    && |b| > 0
    && Init(b[0])
    && forall i | 0 <= i < |b| - 1 :: StepAt(b, i)
  }

  // ---- Sums over the threads ----

  datatype Quantity = Unsignalled | Releases | Reserved | Waiters

  function Weight(pc: Pc, q: Quantity): nat {
    match pc
    case Signal(n) => if q == Unsignalled then n else 0
    case Post(r) => if q == Releases then r else 0
    case TryLoad(held, _, _) => if q == Reserved then held else 0
    case TryCas(held, _, _, _) => if q == Reserved then held else 0
    case Retry(k) => if q == Reserved then k else 0
    case Kernel(_, _) => if q == Waiters then 1 else 0
    case Check(_, _) => if q == Waiters then 1 else 0
    case TryKernel(_, _) => if q == Waiters then 1 else 0
    case Cancel(_, _, _) => if q == Waiters then 1 else 0
    case _ => 0
  }

  function Total(threads: seq<Pc>, q: Quantity): nat {
    if threads == [] then 0
    else Total(threads[..|threads| - 1], q) + Weight(threads[|threads| - 1], q)
  }

  lemma {:induction false} TotalUpdate(threads: seq<Pc>, t: nat, pc: Pc, q: Quantity)
    requires t < |threads|
    ensures Total(threads[t := pc], q) == Total(threads, q) - Weight(threads[t], q) + Weight(pc, q)
  {
    var last := |threads| - 1;
    if t == last {
      assert threads[t := pc][..last] == threads[..last];
    } else {
      assert threads[t := pc][..last] == threads[..last][t := pc];
      TotalUpdate(threads[..last], t, pc, q);
    }
  }

  lemma {:induction false} TotalBounds(threads: seq<Pc>, t: nat, q: Quantity)
    requires t < |threads|
    ensures Weight(threads[t], q) <= Total(threads, q)
  {
    if t < |threads| - 1 {
      TotalBounds(threads[..|threads| - 1], t, q);
    }
  }

  lemma {:induction false} TotalZero(threads: seq<Pc>, q: Quantity)
    requires forall t | 0 <= t < |threads| :: Weight(threads[t], q) == 0
    ensures Total(threads, q) == 0
  {
    if threads != [] {
      TotalZero(threads[..|threads| - 1], q);
    }
  }

  // ---- The invariant ----

  // Each element of the inner queue, and each initial permit, is accounted for: it is about to be
  // signalled, it backs a free permit or a waiter, or it is owed to a consumer.
  predicate ElementsOk(s: State) {
    s.initial + s.size ==
      s.count + Total(s.threads, Waiters) + Total(s.threads, Unsignalled) + Total(s.threads, Reserved)
  }

  // Each waiter is accounted for by the deficit of m_count or by a wake-up that exists or is being issued.
  predicate WaitersOk(s: State) {
    Total(s.threads, Waiters) == PositivePart(-s.count) + s.kernel + Total(s.threads, Releases)
  }

  predicate LocalOk(pc: Pc) {
    (pc.TryCas? ==> pc.old_ > 0) && (pc.Cancel? ==> pc.old_ < 0)
  }

  predicate LocalsOk(s: State) {
    forall t | 0 <= t < |s.threads| :: LocalOk(s.threads[t])
  }

  predicate Inv(s: State) {
    ElementsOk(s) && WaitersOk(s) && LocalsOk(s)
  }

  function Gain(s: State, t: nat, s': State, q: Quantity): int
    requires t < |s.threads| == |s'.threads|
  {
    Weight(s'.threads[t], q) - Weight(s.threads[t], q)
  }

  // What one step moves in the two accounts.
  predicate Balances(s: State, t: nat, s': State) {
    && t < |s.threads| == |s'.threads|
    && s'.threads == s.threads[t := s'.threads[t]]
    && LocalOk(s'.threads[t])
    && s'.initial == s.initial
    && s'.size - s.size
       == s'.count - s.count + Gain(s, t, s', Waiters) + Gain(s, t, s', Unsignalled) + Gain(s, t, s', Reserved)
    && Gain(s, t, s', Waiters)
       == PositivePart(-s'.count) - PositivePart(-s.count) + s'.kernel - s.kernel + Gain(s, t, s', Releases)
  }

  predicate Waits(pc: Pc) {
    pc.Kernel? || pc.Check? || pc.TryKernel? || pc.Cancel?
  }

  lemma WaiterBalances(s: State, t: nat, s': State)
    requires Step(s, t, s') && LocalOk(s.threads[t]) && Waits(s.threads[t])
    ensures Balances(s, t, s')
  {
  }

  lemma ProducerBalances(s: State, t: nat, s': State)
    requires Step(s, t, s') && (s.threads[t].Signal? || s.threads[t].Post? || s.threads[t].Idle?)
    ensures Balances(s, t, s')
  {
  }

  lemma OtherBalances(s: State, t: nat, s': State)
    requires Step(s, t, s') && LocalOk(s.threads[t]) && !Waits(s.threads[t])
    requires !s.threads[t].Signal? && !s.threads[t].Post? && !s.threads[t].Idle?
    ensures Balances(s, t, s')
  {
  }

  lemma StepKeeps(s: State, s': State)
    requires Inv(s) && SomeStep(s, s')
    ensures Inv(s') && s'.initial == s.initial
  {
    var t: nat :| Step(s, t, s');
    if Waits(s.threads[t]) {
      WaiterBalances(s, t, s');
    } else if s.threads[t].Signal? || s.threads[t].Post? || s.threads[t].Idle? {
      ProducerBalances(s, t, s');
    } else {
      OtherBalances(s, t, s');
    }
    assert Balances(s, t, s');
    TotalUpdate(s.threads, t, s'.threads[t], Unsignalled);
    TotalUpdate(s.threads, t, s'.threads[t], Releases);
    TotalUpdate(s.threads, t, s'.threads[t], Reserved);
    TotalUpdate(s.threads, t, s'.threads[t], Waiters);
  }

  // ---- Main results ----

  /** In every reachable state both accounts balance: permits against elements, waiters against
      wake-ups. */
  lemma {:induction false} RunConserves(b: seq<State>, i: nat)
    requires Run(b) && i < |b|
    ensures Inv(b[i]) && b[i].initial == b[0].initial
  {
    if i == 0 {
      var s := b[0];
      TotalZero(s.threads, Unsignalled);
      TotalZero(s.threads, Releases);
      TotalZero(s.threads, Reserved);
      TotalZero(s.threads, Waiters);
    } else {
      RunConserves(b, i - 1);
      assert StepAt(b, i - 1);
      StepKeeps(b[i - 1], b[i]);
    }
  }

  /** The semaphore never grants more than its initial count and what was signalled. In a blocking queue
      all the elements owed to consumers, over all threads, are in the inner queue at once, so no
      consumer spins in its retry loop for an element that is not there. */
  lemma EveryGrantHasAnElement(b: seq<State>, i: nat, t: nat)
    requires Run(b) && i < |b| && t < |b[i].threads|
    ensures Total(b[i].threads, Reserved) + Total(b[i].threads, Unsignalled) <= b[0].initial + b[i].size
    ensures b[0].initial == 0 && b[i].threads[t].Retry? ==> b[i].threads[t].k <= b[i].size
  {
    RunConserves(b, i);
    TotalBounds(b[i].threads, t, Reserved);
  }

  /** No wake-up is lost, timeouts included: if consumers sleep with no wake-up available or on its
      way, then m_count is exactly minus their number, and every element that has been signalled is
      already owed to somebody else. */
  lemma SleepersHaveNothingToTake(b: seq<State>, i: nat)
    requires Run(b) && i < |b|
    requires Total(b[i].threads, Waiters) > 0
    requires b[i].kernel == 0 && Total(b[i].threads, Releases) == 0
    ensures b[i].count == -(Total(b[i].threads, Waiters) as int)
    ensures b[0].initial + b[i].size == Total(b[i].threads, Unsignalled) + Total(b[i].threads, Reserved)
  {
    RunConserves(b, i);
  }

  /** A consumer that timed out and finds m_count no longer negative may not give up; there is a
      wake-up for it, posted or being posted, and as many as there are waiters. */
  lemma LateWakeupExists(b: seq<State>, i: nat, t: nat)
    requires Run(b) && i < |b| && t < |b[i].threads|
    requires b[i].threads[t].TryKernel? && b[i].count >= 0
    ensures b[i].kernel + Total(b[i].threads, Releases) == Total(b[i].threads, Waiters) >= 1
  {
    RunConserves(b, i);
    TotalBounds(b[i].threads, t, Waiters);
  }

  /** When every call has returned, the free permits are exactly the elements left, and the kernel
      semaphore is back at zero. */
  lemma QuiescentPermitsMatchElements(b: seq<State>, i: nat)
    requires Run(b) && i < |b|
    requires forall t | 0 <= t < |b[i].threads| :: b[i].threads[t] == Idle
    ensures b[i].count == b[0].initial + b[i].size && b[i].kernel == 0
  {
    RunConserves(b, i);
    var s := b[i];
    TotalZero(s.threads, Unsignalled);
    TotalZero(s.threads, Releases);
    TotalZero(s.threads, Reserved);
    TotalZero(s.threads, Waiters);
  }
}
