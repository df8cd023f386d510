/** What the calls of the blocking queue achieve. `BlockingQueue` shows that no more permits are granted than
    there are; here it is shown that a permit that is there is obtained, that a consumer comes away empty
    only if there was none, and that sleepers can be woken.
 */
module BlockingCalls {
  import opened BlockingQueue

  // Elements and initial permits that nobody has a claim to: not owed, not about to be signalled, and not
  // meant for a waiter. Negative if there are more waiters than elements.
  function Unclaimed(s: State): int {
    s.initial + s.size - Total(s.threads, Waiters) - Total(s.threads, Unsignalled) - Total(s.threads, Reserved)
  }

  // ---- Coming away with nothing ----

  // At step k thread t's tryWaitMany ends without a compare-and-swap.
  predicate FindsNoPermit(b: seq<State>, k: nat, t: nat) {
    && k + 1 < |b| && t < |b[k].threads| && b[k].threads[t].TryLoad? && Step(b[k], t, b[k + 1])
    && t < |b[k + 1].threads| && !b[k + 1].threads[t].TryCas?
  }

  /** A try finds no permit only at a moment at which every element is spoken for. */
  lemma NoPermitMeansNothingUnclaimed(b: seq<State>, k: nat, t: nat)
    requires Run(b) && FindsNoPermit(b, k, t)
    ensures Unclaimed(b[k]) <= 0
  {
    RunConserves(b, k);
  }

  /** A timed wait gives up only at a moment at which there are more waiters than elements. */
  lemma TimeoutMeansNothingUnclaimed(b: seq<State>, k: nat, t: nat)
    requires Run(b) && k + 1 < |b| && t < |b[k].threads| && t < |b[k + 1].threads|
    requires Step(b[k], t, b[k + 1]) && Waits(b[k].threads[t]) && b[k + 1].threads[t] == Idle
    ensures Unclaimed(b[k]) < 0
  {
    RunConserves(b, k);
  }

  // ---- Who waits, and who does not come away empty ----

  predicate ModeOk(pc: Pc) {
    && (pc.Sub? || Waits(pc) ==> pc.mode != Try && pc.max > 0)
    && (pc.TryLoad? || pc.TryCas? ==> pc.held > 0 ==> pc.mode == Try)
  }

  lemma {:induction false} ModesAreOk(b: seq<State>, k: nat, t: nat)
    requires Run(b) && k < |b| && t < |b[k].threads|
    ensures ModeOk(b[k].threads[t])
  {
    if k > 0 {
      assert StepAt(b, k - 1);
      var t': nat :| Step(b[k - 1], t', b[k]);
      ThreadsOfStep(b[k - 1], t', b[k]);
      ModesAreOk(b, k - 1, t);
      if t == t' {
        ModeStaysOk(b[k - 1], t, b[k]);
      }
    }
  }

  lemma ModeStaysOk(s: State, t: nat, s': State)
    requires Step(s, t, s') && ModeOk(s.threads[t])
    ensures t < |s'.threads| && ModeOk(s'.threads[t])
  {
    if Waits(s.threads[t]) {
      WaitersMode(s, t, s');
    } else if s.threads[t].TryLoad? || s.threads[t].TryCas? || s.threads[t].Sub? {
      TriersMode(s, t, s');
    }
  }

  lemma WaitersMode(s: State, t: nat, s': State)
    requires Step(s, t, s') && ModeOk(s.threads[t]) && Waits(s.threads[t])
    ensures t < |s'.threads| && ModeOk(s'.threads[t])
  {
  }

  lemma TriersMode(s: State, t: nat, s': State)
    requires Step(s, t, s') && ModeOk(s.threads[t])
    requires s.threads[t].TryLoad? || s.threads[t].TryCas? || s.threads[t].Sub?
    ensures t < |s'.threads| && ModeOk(s'.threads[t])
  {
  }

  lemma ThreadsOfStep(s: State, t: nat, s': State)
    requires Step(s, t, s')
    ensures |s'.threads| == |s.threads| && s'.threads == s.threads[t := s'.threads[t]]
  {
  }

  /** A try never spins or sleeps. */
  lemma TryNeverWaits(b: seq<State>, k: nat, t: nat)
    requires Run(b) && k < |b| && t < |b[k].threads|
    requires b[k].threads[t].Sub? || Waits(b[k].threads[t])
    ensures b[k].threads[t].mode == Timed || b[k].threads[t].mode == Forever
  {
    ModesAreOk(b, k, t);
  }

  // Inside a dequeue of at least one element that may not fail: it has no timeout, or holds a permit.
  predicate MustSucceed(pc: Pc) {
    || ((pc.TryLoad? || pc.TryCas?) && (pc.held > 0 || (pc.mode == Forever && pc.max > 0)))
    || ((pc.Sub? || Waits(pc)) && pc.mode == Forever)
    || (pc.Retry? && pc.k > 0)
  }

  /** A dequeue without a timeout, and one that has obtained a permit, goes on until it has at least one
      element: nothing but a taken element brings it nearer to its return. */
  lemma WaitIsNotInVain(b: seq<State>, k: nat, t: nat)
    requires Run(b) && k + 1 < |b| && t < |b[k].threads| && MustSucceed(b[k].threads[t])
    ensures t < |b[k + 1].threads|
    ensures MustSucceed(b[k + 1].threads[t]) ||
            (&& b[k].threads[t].Retry? && b[k + 1].threads[t] == Retry(0)
             && b[k].size - b[k + 1].size == b[k].threads[t].k)
  {
    assert StepAt(b, k);
    ModesAreOk(b, k, t);
    RunConserves(b, k);
    var t': nat :| Step(b[k], t', b[k + 1]);
    ThreadsOfStep(b[k], t', b[k + 1]);
    assert LocalOk(b[k].threads[t]);
  }

  // ---- Undisturbed calls ----

  // From moment i to moment j no other thread takes a step.
  predicate Alone(b: seq<State>, i: nat, j: nat, t: nat) {
    i <= j < |b| && forall k | i <= k < j :: Step(b[k], t, b[k + 1])
  }

  // Thread t is in one tryWaitMany from moment i up to, and not including, moment j.
  predicate Trying(b: seq<State>, i: nat, j: nat, t: nat) {
    i <= j < |b| && forall k | i <= k < j :: t < |b[k].threads| && (b[k].threads[t].TryLoad? || b[k].threads[t].TryCas?)
  }

  // Where such a call has come to.
  predicate TryStands(s: State, t: nat, max: nat, mode: Mode, s': State) {
    && t < |s.threads| == |s'.threads|
    && match s'.threads[t]
       case TryLoad(held, m, md) => s' == Goto(s, t, TryLoad(0, max, mode))
       case TryCas(held, m, md, old_) => s' == Goto(s, t, TryCas(0, max, mode, s.count)) && s.count > 0
       case Retry(k) => k == PositivePart(Min(max, s.count))
       case _ => false
  }

  lemma {:induction false} TryIsFollowed(b: seq<State>, i: nat, j: nat, t: nat, max: nat, mode: Mode)
    requires Run(b) && Alone(b, i, j, t) && Trying(b, i, j, t) && t < |b[i].threads|
    requires b[i].threads[t] == TryLoad(0, max, mode) && (mode == Try || b[i].count > 0)
    ensures TryStands(b[i], t, max, mode, b[j])
    decreases j
  {
    if i < j {
      TryIsFollowed(b, i, j - 1, t, max, mode);
      assert Step(b[j - 1], t, b[j]);
      assert b[i].threads[t := TryLoad(0, max, mode)] == b[i].threads;
    } else {
      assert b[i].threads[t := TryLoad(0, max, mode)] == b[i].threads;
    }
  }

  /** An undisturbed call obtains as many permits as it wants, or as there are unclaimed elements: whatever
      the compare-and-swap's spurious failures, it comes to the retry loop with exactly that many. */
  lemma UndisturbedTryIsExact(b: seq<State>, i: nat, j: nat, t: nat, max: nat, mode: Mode)
    requires Run(b) && Alone(b, i, j, t) && Trying(b, i, j, t) && t < |b[i].threads|
    requires b[i].threads[t] == TryLoad(0, max, mode) && (mode == Try || Unclaimed(b[i]) > 0)
    requires t < |b[j].threads| && b[j].threads[t].Retry?
    ensures b[j].threads[t].k == PositivePart(Min(max, Unclaimed(b[i])))
  {
    RunConserves(b, i);
    TryIsFollowed(b, i, j, t, max, mode);
  }

  // ---- Calls can go through ----

  ghost function Last(b: seq<State>): State
    requires |b| > 0
  {
    b[|b| - 1]
  }

  ghost predicate Continues(b: seq<State>, b': seq<State>) {
    Run(b') && b <= b'
  }

  lemma Goes(b: seq<State>, t: nat, s: State) returns (b': seq<State>)
    requires Run(b) && Step(Last(b), t, s)
    ensures Continues(b, b') && Last(b') == s
  {
    b' := b + [s];
    assert SomeStep(Last(b), s);
    forall i | 0 <= i < |b'| - 1 ensures StepAt(b', i) {
      assert i < |b| - 1 ==> StepAt(b, i);
    }
  }

  /** From any state, a call that is not disturbed can return with what is unclaimed, up to what it wants.
      With an initial count of 0 the elements are there for it. */
  lemma DequeueGoesThrough(b: seq<State>, t: nat, max: nat, mode: Mode) returns (b': seq<State>)
    requires Run(b) && t < |Last(b).threads| && Last(b).threads[t] == Idle && Last(b).initial == 0
    requires mode == Try || (Unclaimed(Last(b)) > 0 && max > 0)
    ensures Continues(b, b')
    ensures var s, n := Last(b), PositivePart(Min(max, Unclaimed(Last(b))));
            n <= s.size && Last(b') == s.(size := s.size - n, count := s.count - n)
  {
    var s := Last(b);
    RunConserves(b, |b| - 1);
    var b1 := Goes(b, t, Goto(s, t, TryLoad(0, max, mode)));
    var b2, n := PermitIsObtained(b1, t, 0, max, mode);
    RunConserves(b2, |b2| - 1);
    EveryGrantHasAnElement(b2, |b2| - 1, t);
    var b3 := b2;
    if n > 0 {
      b3 := Goes(b2, t, Goto(Last(b2), t, Retry(0)).(size := s.size - n));
    }
    b' := Goes(b3, t, Goto(Last(b3), t, Idle));
    assert Last(b').threads == s.threads;
  }

  lemma PermitIsObtained(b: seq<State>, t: nat, held: nat, max: nat, mode: Mode) returns (b': seq<State>, n: nat)
    requires Run(b) && t < |Last(b).threads| && Last(b).threads[t] == TryLoad(held, max, mode)
    requires mode == Try || (Last(b).count > 0 && max > 0)
    ensures Continues(b, b') && n == PositivePart(Min(max, Last(b).count))
    ensures Last(b') == Goto(Last(b), t, Retry(held + n)).(count := Last(b).count - n)
  {
    var s := Last(b);
    n := PositivePart(Min(max, s.count));
    if s.count > 0 {
      var b1 := Goes(b, t, Goto(s, t, TryCas(held, max, mode, s.count)));
      b' := Goes(b1, t, Goto(Last(b1), t, Retry(held + n)).(count := s.count - n));
      assert Last(b') == Goto(s, t, Retry(held + n)).(count := s.count - n);
    } else {
      b' := Goes(b, t, Goto(s, t, Retry(held)));
    }
  }

  /** From any state, an enqueue can put in its n elements, raise the count by n and wake up to n of those
      whom it is negative for. */
  lemma EnqueueGoesThrough(b: seq<State>, p: nat, n: nat) returns (b': seq<State>)
    requires Run(b) && p < |Last(b).threads| && Last(b).threads[p] == Idle
    ensures Continues(b, b')
    ensures var s := Last(b);
      Last(b') == s.(size := s.size + n, count := s.count + n, kernel := s.kernel + PositivePart(Min(n, -s.count)))
  {
    var s := Last(b);
    var b1 := Goes(b, p, Goto(s, p, Signal(n)).(size := s.size + n));
    var release := Min(-s.count, n);
    var s2 := Goto(Last(b1), p, if release > 0 then Post(release) else Idle).(count := s.count + n);
    var b2 := Goes(b1, p, s2);
    if release > 0 {
      b' := PostsAll(b2, p, release);
    } else {
      b' := b2;
    }
    assert Last(b').threads == s.threads;
  }

  lemma {:induction false} PostsAll(b: seq<State>, p: nat, r: nat) returns (b': seq<State>)
    requires Run(b) && p < |Last(b).threads| && Last(b).threads[p] == Post(r)
    ensures Continues(b, b') && Last(b') == Goto(Last(b), p, Idle).(kernel := Last(b).kernel + r)
    decreases r
  {
    var s := Last(b);
    if r == 0 {
      b' := Goes(b, p, Goto(s, p, Idle));
    } else {
      var b1 := Goes(b, p, Goto(s, p, Post(r - 1)).(kernel := s.kernel + 1));
      b' := PostsAll(b1, p, r - 1);
      assert Goto(Last(b1), p, Idle).threads == Goto(s, p, Idle).threads;
    }
  }

  // With one permit in hand, up to max - 1 more are taken of those that are free.
  lemma MoreAreTaken(b: seq<State>, t: nat, max: nat) returns (b': seq<State>, n: nat)
    requires Run(b) && t < |Last(b).threads| && Last(b).threads[t] == OnePermit(max) && max > 0
    ensures Continues(b, b') && n == PositivePart(Min(max - 1, Last(b).count))
    ensures Last(b') == Goto(Last(b), t, Retry(1 + n)).(count := Last(b).count - n)
  {
    if max > 1 {
      b', n := PermitIsObtained(b, t, 1, max - 1, Try);
    } else {
      b', n := b, 0;
      assert Last(b).threads[t := Retry(1)] == Last(b).threads;
    }
  }

  /** A waiter for whom the kernel semaphore has been released, in its wait or after its timeout, can go on
      with a permit, and takes up to max - 1 more of those that are free. */
  lemma WakeUpIsTaken(b: seq<State>, t: nat) returns (b': seq<State>, n: nat)
    requires Run(b) && t < |Last(b).threads| && Last(b).kernel > 0
    requires Last(b).threads[t].Kernel? || (Last(b).threads[t].Check? && Last(b).count >= 0)
    ensures Continues(b, b') && n == PositivePart(Min(Last(b).threads[t].max - 1, Last(b).count))
    ensures var s := Last(b);
            Last(b') == Goto(s, t, Retry(1 + n)).(kernel := s.kernel - 1, count := s.count - n)
  {
    var s := Last(b);
    var pc := s.threads[t];
    ModesAreOk(b, |b| - 1, t);
    var b1 := b;
    if pc.Check? {
      b1 := Goes(b, t, Goto(s, t, TryKernel(pc.max, pc.mode)));
    }
    var b2 := Goes(b1, t, Goto(Last(b1), t, OnePermit(pc.max)).(kernel := s.kernel - 1));
    assert Last(b2).threads == Goto(s, t, OnePermit(pc.max)).threads;
    b', n := MoreAreTaken(b2, t, pc.max);
    assert Last(b').threads == Goto(s, t, Retry(1 + n)).threads;
  }

  /** So does a spinning waiter when it finds permits at last. */
  lemma SpinnerTakes(b: seq<State>, t: nat) returns (b': seq<State>, n: nat)
    requires Run(b) && t < |Last(b).threads| && Last(b).threads[t].Sub? && Last(b).count > 0
    ensures Continues(b, b') && n == Min(Last(b).threads[t].max, Last(b).count)
    ensures Last(b') == Goto(Last(b), t, Retry(n)).(count := Last(b).count - n)
  {
    var s := Last(b);
    var max := s.threads[t].max;
    ModesAreOk(b, |b| - 1, t);
    var b1 := Goes(b, t, Goto(s, t, OnePermit(max)).(count := s.count - 1));
    var b2, more := MoreAreTaken(b1, t, max);
    b', n := b2, 1 + more;
    assert Last(b').threads == Goto(s, t, Retry(n)).threads;
  }

  // A thread that is owed an element can return with it.
  lemma OneElementIsTaken(b: seq<State>, t: nat) returns (b': seq<State>)
    requires Run(b) && t < |Last(b).threads| && Last(b).threads[t] == Retry(1) && Last(b).initial == 0
    ensures Continues(b, b') && Last(b).size > 0
    ensures Last(b') == Goto(Last(b), t, Idle).(size := Last(b).size - 1)
  {
    var s := Last(b);
    EveryGrantHasAnElement(b, |b| - 1, t);
    RunConserves(b, |b| - 1);
    var b1 := Goes(b, t, Goto(s, t, Retry(0)).(size := s.size - 1));
    b' := Goes(b1, t, Goto(Last(b1), t, Idle));
    assert Last(b').threads == Goto(s, t, Idle).threads;
  }

  /** A sleeper can be served by the next element: if no wake-up is under way, a producer's enqueue of one
      element wakes it, and it returns with the element. */
  lemma SleeperIsServed(b: seq<State>, t: nat, p: nat) returns (b': seq<State>)
    requires Run(b) && t < |Last(b).threads| && p < |Last(b).threads| && Last(b).initial == 0
    requires Last(b).threads[t].Kernel? && Last(b).threads[p] == Idle
    requires Last(b).kernel == 0 && Total(Last(b).threads, Releases) == 0
    ensures Continues(b, b')
    ensures Last(b') == Goto(Last(b), t, Idle).(count := Last(b).count + 1)
  {
    var s := Last(b);
    RunConserves(b, |b| - 1);
    TotalBounds(s.threads, t, Waiters);
    var b1 := EnqueueGoesThrough(b, p, 1);
    var b2, n := WakeUpIsTaken(b1, t);
    b' := OneElementIsTaken(b2, t);
    assert Last(b').threads == Goto(s, t, Idle).threads;
  }

  /** A timed wait can give up while the count is negative, and one without a timeout starts again. */
  lemma TimeoutIsTaken(b: seq<State>, t: nat) returns (b': seq<State>)
    requires Run(b) && t < |Last(b).threads| && Last(b).threads[t].Kernel? && Last(b).count < 0
    ensures Continues(b, b')
    ensures var s := Last(b); var pc := s.threads[t];
      Last(b') == Goto(s, t, if pc.mode == Timed then Idle else TryLoad(0, pc.max, Forever)).(count := s.count + 1)
  {
    var s := Last(b);
    var pc := s.threads[t];
    ModesAreOk(b, |b| - 1, t);
    var b1 := Goes(b, t, Goto(s, t, Check(pc.max, pc.mode)));
    var b2 := Goes(b1, t, Goto(Last(b1), t, Cancel(pc.max, pc.mode, s.count)));
    var after := if pc.mode == Timed then Idle else TryLoad(0, pc.max, Forever);
    b' := Goes(b2, t, Goto(Last(b2), t, after).(count := s.count + 1));
    assert Last(b').threads == Goto(s, t, after).threads;
  }
}
