/** The ticket counters of one producer's sub-queue: how any number of concurrent consumers
    agree, without locks, on how many elements each may take.

    `dequeue` and `dequeue_bulk` take a range of tickets from `dequeueOptimisticCount` and
    correct the tickets they cannot use through `dequeueOvercommit`; only then do they move
    `headIndex`. Each load and each `fetch_add` is one step. `dequeue` is `dequeue_bulk` with
    `max == 1`. Indices are unbounded.
 */
module Tickets {
  import opened Common

  datatype Pc =
    | Idle
    | LoadOvercommit(max: nat, tail: int)
    | LoadOptimistic(max: nat, tail: int, over: int)
    | TakeTickets(want: nat, over: int)
    | Holding(my: nat, end: nat, stage: Stage) // tickets my .. end are this thread's
    | Took(first: nat, got: nat) // elements first .. first + got are this thread's

  // What a thread that holds tickets does next.
  datatype Stage =
    | ReloadTail(over: int)
    | AddOvercommit(got: nat) // only the first `got` tickets are usable
    | Claim

  datatype State = State(tail: nat, head: nat, optimistic: nat, overcommit: nat, threads: seq<Pc>)

  function Min(a: int, b: int): int { if a < b then a else b }

  function Minus(a: nat, b: nat): nat { if a < b then 0 else a - b }

  function Goto(s: State, t: nat, pc: Pc): State
    requires t < |s.threads|
  {
    s.(threads := s.threads[t := pc])
  }

  // One atomic step of a consumer inside dequeue or dequeue_bulk.
  function Advance(s: State, t: nat): State
    requires t < |s.threads|
  {
    match s.threads[t]
    case Idle => s
    case LoadOvercommit(max, tail) => Goto(s, t, LoadOptimistic(max, tail, s.overcommit))
    case LoadOptimistic(max, tail, over) =>
      var desired := tail - (s.optimistic - over);
      Goto(s, t, if desired > 0 then TakeTickets(Min(desired, max), over) else Idle)
    case TakeTickets(want, over) =>
      Goto(s, t, Holding(s.optimistic, s.optimistic + want, ReloadTail(over)))
      .(optimistic := s.optimistic + want)
    case Holding(my, end, ReloadTail(over)) =>
      var actual := s.tail - (my - over);
      Goto(s, t, Holding(my, end,
        if actual <= 0 then AddOvercommit(0)
        else if actual < end - my then AddOvercommit(actual)
        else Claim))
    case Holding(my, end, AddOvercommit(got)) =>
      Goto(s, t, if got > 0 then Holding(my, my + got, Claim) else Idle)
      .(overcommit := s.overcommit + Minus(end, my + got))
    case Holding(my, end, Claim) => Goto(s, t, Took(s.head, Minus(end, my))).(head := s.head + Minus(end, my))
    case Took(_, _) => Goto(s, t, Idle)
  }

  function StartDequeue(s: State, t: nat, max: nat): State
    requires t < |s.threads|
  {
    Goto(s, t, LoadOvercommit(max, s.tail))
  }

  ghost predicate Dequeues(s: State, t: nat, s': State) {
    && t < |s.threads|
    && if s.threads[t] == Idle then exists max: nat :: s' == StartDequeue(s, t, max)
       else s' == Advance(s, t)
  }

  // The one producer publishes n more elements (enqueue: n == 1; enqueue_bulk: any n).
  predicate Enqueues(s: State, s': State) {
    s.tail <= s'.tail && s' == s.(tail := s'.tail)
  }

  ghost predicate SomeDequeue(s: State, s': State) {
    exists t: nat :: Dequeues(s, t, s')
  }

  ghost predicate SomeStep(s: State, s': State) {
    Enqueues(s, s') || SomeDequeue(s, s')
  }

  predicate Init(s: State) {
    && s.tail == s.head == s.optimistic == s.overcommit == 0
    && forall t | 0 <= t < |s.threads| :: s.threads[t] == Idle
  }

  ghost predicate StepAt(b: seq<State>, i: nat)
    requires i + 1 < |b|
  {
    SomeStep(b[i], b[i + 1])
  }

  ghost predicate Run(b: seq<State>) {
    && |b| > 0
    && Init(b[0])
    && forall i | 0 <= i < |b| - 1 :: StepAt(b, i)
  }

  // ---- Finite sets of tickets ----

  lemma DisjointSize(a: set<nat>, b: set<nat>)
    requires a !! b
    ensures |a + b| == |a| + |b|
  {
  }

  // How many tickets below u are in d.
  function Count(d: set<nat>, u: nat): nat {
    if u == 0 then 0 else Count(d, u - 1) + (if u - 1 in d then 1 else 0)
  }

  lemma {:induction false} CountsAll(d: set<nat>, u: nat)
    requires forall x | x in d :: x < u
    ensures Count(d, u) == |d|
  {
    if u > 0 {
      var rest := d - {u - 1};
      CountsAll(rest, u - 1);
      CountAgrees(d, rest, u - 1);
      if u - 1 in d {
        assert d == rest + {u - 1};
      } else {
        assert d == rest;
      }
    } else {
      assert d == {};
    }
  }

  lemma {:induction false} CountAgrees(d: set<nat>, d': set<nat>, u: nat)
    requires forall x: nat | x < u :: x in d <==> x in d'
    ensures Count(d, u) == Count(d', u)
  {
    if u > 0 {
      CountAgrees(d, d', u - 1);
    }
  }

  lemma {:induction false} CountGrows(d: set<nat>, d': set<nat>, u: nat, v: nat)
    requires d <= d' && u <= v
    ensures Count(d, u) <= Count(d', v)
    decreases v
  {
    if v > 0 {
      CountGrows(d, d', if u == v then u - 1 else u, v - 1);
    }
  }

  lemma {:induction false} DisjointCount(a: set<nat>, b: set<nat>, u: nat)
    requires a !! b
    ensures Count(a, u) + Count(b, u) <= u
  {
    if u > 0 {
      DisjointCount(a, b, u - 1);
    }
  }

  // If every ticket u in `used` satisfies u + 1 - (denied tickets below u) <= bound, there are
  // at most `bound` of them.
  lemma FewTickets(used: set<nat>, denied: set<nat>, bound: nat)
    requires used !! denied
    requires forall u | u in used :: u + 1 - Count(denied, u) <= bound
    ensures |used| <= bound
  {
    if used != {} {
      var m := Largest(used);
      CountsAll(used, m + 1);
      DisjointCount(used, denied, m + 1);
    }
  }

  lemma {:induction false} Largest(a: set<nat>) returns (m: nat)
    requires a != {}
    ensures m in a && forall x | x in a :: x <= m
  {
    m :| m in a;
    var rest := a - {m};
    if rest == {} {
      assert a == {m};
    } else {
      var n := Largest(rest);
      assert forall x | x in a :: x == m || x in rest;
      if n > m { m := n; }
    }
  }

  // ---- The invariant ----

  predicate InHand(pc: Pc, u: nat) {
    pc.Holding? && pc.my <= u < pc.end
  }

  // `used` tickets have moved the head, `counted` ones are in the overcommit; `denied` ones
  // are those found unusable, counted yet or not.
  datatype Ledger = Ledger(used: set<nat>, counted: set<nat>, denied: set<nat>)

  predicate PcOk(s: State, l: Ledger, pc: Pc) {
    match pc
    case LoadOptimistic(_, _, over) => over <= |l.denied|
    case TakeTickets(_, over) => over <= |l.denied|
    case Holding(my, end, stage) =>
      && my <= end <= s.optimistic
      && (stage.ReloadTail? ==> stage.over <= Count(l.denied, my))
      && (stage.AddOvercommit? ==> my + stage.got <= end)
      && (stage.AddOvercommit? && stage.got > 0 ==> my + stage.got - Count(l.denied, my) <= s.tail)
      && (stage.Claim? && my < end ==> end - Count(l.denied, my) <= s.tail)
    case _ => true
  }

  // A ticket in a thread's hand is denied exactly if the thread has found that it is.
  predicate HandDenied(pc: Pc, u: nat) {
    pc.Holding? && pc.stage.AddOvercommit? && pc.my + pc.stage.got <= u < pc.end
  }

  ghost predicate LedgerOk(s: State, l: Ledger) {
    && |l.used| == s.head
    && |l.counted| == s.overcommit
    && l.counted <= l.denied
    && l.used !! l.denied
    && (forall u | u in l.used || u in l.denied :: u < s.optimistic)
    && (forall u | u in l.used :: u + 1 - Count(l.denied, u) <= s.tail)
  }

  ghost predicate HandOk(l: Ledger, pc: Pc) {
    forall u: nat | InHand(pc, u) ::
      u !in l.used && u !in l.counted && (u in l.denied <==> HandDenied(pc, u))
  }

  ghost predicate HandsOk(s: State, l: Ledger) {
    && (forall t | 0 <= t < |s.threads| :: PcOk(s, l, s.threads[t]))
    && (forall t | 0 <= t < |s.threads| :: HandOk(l, s.threads[t]))
    && (forall t, t', u: nat | 0 <= t < |s.threads| && 0 <= t' < |s.threads| && t != t' ::
          !(InHand(s.threads[t], u) && InHand(s.threads[t'], u)))
    && (forall u: nat | u < s.optimistic && u !in l.used && u !in l.counted ::
          exists t :: 0 <= t < |s.threads| && InHand(s.threads[t], u))
  }

  ghost predicate Inv(s: State, l: Ledger) {
    LedgerOk(s, l) && HandsOk(s, l)
  }

  ghost predicate Safe(s: State) {
    exists l :: Inv(s, l)
  }

  // A step of thread t touches no ticket but those in its own hand, and every ticket that leaves
  // its hand is used or counted.
  ghost predicate Transfers(s: State, t: nat, s': State, l: Ledger, l': Ledger) {
    && t < |s.threads|
    && s'.tail == s.tail && s'.optimistic == s.optimistic
    && |s'.threads| == |s.threads| && s'.threads == s.threads[t := s'.threads[t]]
    && l.used <= l'.used && l.counted <= l'.counted && l.denied <= l'.denied
    && (forall u: nat :: InHand(s'.threads[t], u) ==> InHand(s.threads[t], u))
    && (forall u: nat | u in l'.used - l.used || u in l'.counted - l.counted || u in l'.denied - l.denied ::
          InHand(s.threads[t], u))
    && (forall u: nat | InHand(s.threads[t], u) && !InHand(s'.threads[t], u) :: u in l'.used || u in l'.counted)
    && LedgerOk(s', l')
    && PcOk(s', l', s'.threads[t])
    && HandOk(l', s'.threads[t])
  }

  lemma Frame(s: State, t: nat, s': State, l: Ledger, l': Ledger)
    requires Inv(s, l) && Transfers(s, t, s', l, l')
    ensures Safe(s')
  {
    forall t' | 0 <= t' < |s.threads| && t' != t ensures PcOk(s', l', s'.threads[t']) && HandOk(l', s'.threads[t']) {
      OtherPc(s, s', l, l', s.threads[t']);
      assert HandOk(l, s.threads[t']);
    }
    forall u: nat | u < s'.optimistic && u !in l'.used && u !in l'.counted
      ensures exists t' :: 0 <= t' < |s'.threads| && InHand(s'.threads[t'], u)
    {
      var t' :| 0 <= t' < |s.threads| && InHand(s.threads[t'], u);
      assert InHand(s'.threads[t'], u);
    }
    assert Inv(s', l');
  }

  lemma OtherPc(s: State, s': State, l: Ledger, l': Ledger, pc: Pc)
    requires s'.tail == s.tail && s'.optimistic == s.optimistic && l.denied <= l'.denied
    requires PcOk(s, l, pc)
    ensures PcOk(s', l', pc)
  {
    if pc.Holding? {
      CountGrows(l.denied, l'.denied, pc.my, pc.my);
    }
    SubsetSize(l.denied, l'.denied);
  }

  lemma EnqueueKeeps(s: State, s': State)
    requires Safe(s) && Enqueues(s, s')
    ensures Safe(s')
  {
    var l :| Inv(s, l);
    assert Inv(s', l);
  }

  // The new tickets are nobody else's and are covered by the new hand.
  lemma NewTickets(s: State, t: nat, s': State, l: Ledger)
    requires Inv(s, l) && t < |s.threads| && s.threads[t].TakeTickets? && s' == Advance(s, t)
    ensures HandOk(l, s'.threads[t])
    ensures forall t', u: nat | 0 <= t' < |s.threads| && t' != t && InHand(s.threads[t'], u) :: u < s.optimistic
    ensures forall u: nat | u < s'.optimistic && u !in l.used && u !in l.counted ::
              exists t' :: 0 <= t' < |s'.threads| && InHand(s'.threads[t'], u)
  {
    forall t', u: nat | 0 <= t' < |s.threads| && t' != t && InHand(s.threads[t'], u) ensures u < s.optimistic {
      assert PcOk(s, l, s.threads[t']);
    }
    forall u: nat | u < s'.optimistic && u !in l.used && u !in l.counted
      ensures exists t' :: 0 <= t' < |s'.threads| && InHand(s'.threads[t'], u)
    {
      if u < s.optimistic {
        var t' :| 0 <= t' < |s.threads| && InHand(s.threads[t'], u);
        assert InHand(s'.threads[t'], u);
      } else {
        assert InHand(s'.threads[t], u);
      }
    }
  }

  lemma TakeTicketsKeeps(s: State, t: nat, s': State)
    requires Safe(s) && t < |s.threads| && s.threads[t].TakeTickets? && s' == Advance(s, t)
    ensures Safe(s')
  {
    var l :| Inv(s, l);
    assert PcOk(s, l, s.threads[t]);
    NewTickets(s, t, s', l);
    CountsAll(l.denied, s.optimistic);
    forall t' | 0 <= t' < |s.threads| && t' != t ensures PcOk(s', l, s'.threads[t']) && HandOk(l, s'.threads[t']) {
      assert PcOk(s, l, s.threads[t']) && HandOk(l, s.threads[t']);
    }
    assert PcOk(s', l, s'.threads[t]);
    assert HandsOk(s', l);
    assert Inv(s', l);
  }

  // The thread learns which of its tickets it may use: the rest become denied.
  lemma ReloadTailKeeps(s: State, t: nat, s': State, pc: Pc)
    requires Safe(s) && t < |s.threads| && s.threads[t] == pc && pc.Holding? && pc.stage.ReloadTail?
    requires s' == Advance(s, t)
    ensures Safe(s')
  {
    var l :| Inv(s, l);
    assert PcOk(s, l, pc) && HandOk(l, pc);
    var pc' := s'.threads[t];
    var lost := {};
    if pc'.stage.AddOvercommit? {
      lost := Range(pc.my + pc'.stage.got, pc.end);
    }
    assert forall u: nat | u in lost :: InHand(pc, u);
    var l' := l.(denied := l.denied + lost);
    forall u: nat ensures Count(l.denied, u) <= Count(l'.denied, u) {
      CountGrows(l.denied, l'.denied, u, u);
    }
    Frame(s, t, s', l, l');
  }

  lemma AddOvercommitKeeps(s: State, t: nat, s': State, pc: Pc)
    requires Safe(s) && t < |s.threads| && s.threads[t] == pc && pc.Holding? && pc.stage.AddOvercommit?
    requires s' == Advance(s, t)
    ensures Safe(s')
  {
    var l :| Inv(s, l);
    assert PcOk(s, l, pc) && HandOk(l, pc);
    var more := Range(pc.my + pc.stage.got, pc.end);
    var l' := l.(counted := l.counted + more);
    AddOvercommitTransfers(s, t, s', l, l', pc, more);
    Frame(s, t, s', l, l');
  }

  lemma AddOvercommitTransfers(s: State, t: nat, s': State, l: Ledger, l': Ledger, pc: Pc, more: set<nat>)
    requires LedgerOk(s, l) && t < |s.threads| && s.threads[t] == pc && pc.Holding? && pc.stage.AddOvercommit?
    requires PcOk(s, l, pc) && HandOk(l, pc) && s' == Advance(s, t)
    requires IsRange(more, pc.my + pc.stage.got, pc.end) && |more| == pc.end - (pc.my + pc.stage.got)
    requires l' == l.(counted := l.counted + more)
    ensures Transfers(s, t, s', l, l')
  {
    forall u: nat | pc.my + pc.stage.got <= u < pc.end ensures u in l.denied && u !in l.counted {
      assert InHand(pc, u) && HandDenied(pc, u);
    }
    CountTickets(s, s', l, l', more);
    assert s'.threads[t] == (if pc.stage.got > 0 then Holding(pc.my, pc.my + pc.stage.got, Claim) else Idle);
  }

  lemma CountTickets(s: State, s': State, l: Ledger, l': Ledger, more: set<nat>)
    requires LedgerOk(s, l)
    requires s'.tail == s.tail && s'.optimistic == s.optimistic && s'.head == s.head
    requires s'.overcommit == s.overcommit + |more|
    requires more <= l.denied && more !! l.counted
    requires l' == l.(counted := l.counted + more)
    ensures LedgerOk(s', l')
  {
    DisjointSize(l.counted, more);
  }

  // The thread uses its tickets: the head moves by as many.
  lemma ClaimKeeps(s: State, t: nat, s': State, my: nat, end: nat)
    requires Safe(s) && t < |s.threads| && s.threads[t] == Holding(my, end, Claim)
    requires s' == Advance(s, t)
    ensures Safe(s')
  {
    var l :| Inv(s, l);
    var pc := Holding(my, end, Claim);
    assert PcOk(s, l, pc) && HandOk(l, pc);
    var more := Range(my, end);
    var l' := l.(used := l.used + more);
    ClaimTransfers(s, t, s', l, l', my, end, more);
    Frame(s, t, s', l, l');
  }

  lemma ClaimTransfers(s: State, t: nat, s': State, l: Ledger, l': Ledger, my: nat, end: nat, more: set<nat>)
    requires LedgerOk(s, l) && t < |s.threads| && s.threads[t] == Holding(my, end, Claim)
    requires PcOk(s, l, s.threads[t]) && HandOk(l, s.threads[t]) && s' == Advance(s, t)
    requires IsRange(more, my, end) && |more| == end - my && l' == l.(used := l.used + more)
    ensures Transfers(s, t, s', l, l')
  {
    forall u: nat | my <= u < end ensures u !in l.used && u !in l.denied {
      assert InHand(s.threads[t], u) && !HandDenied(s.threads[t], u);
    }
    UseTickets(s, s', l, l', my, more);
    assert s'.threads[t] == Took(s.head, end - my);
  }

  lemma UseTickets(s: State, s': State, l: Ledger, l': Ledger, my: nat, more: set<nat>)
    requires LedgerOk(s, l) && IsRange(more, my, my + |more|) && my + |more| <= s.optimistic
    requires s'.tail == s.tail && s'.optimistic == s.optimistic && s'.overcommit == s.overcommit
    requires s'.head == s.head + |more|
    requires more !! l.used && more !! l.denied
    requires more != {} ==> my + |more| - Count(l.denied, my) <= s.tail
    requires l' == l.(used := l.used + more)
    ensures LedgerOk(s', l')
  {
    DisjointSize(l.used, more);
    forall u: nat | u in more ensures u + 1 - Count(l.denied, u) <= s.tail {
      CountGrows(l.denied, l.denied, my, u);
    }
  }

  // Outside TakeTickets and Holding a step only changes the thread's own variables.
  lemma OtherStepKeeps(s: State, t: nat, s': State)
    requires Safe(s) && Dequeues(s, t, s') && !s.threads[t].Holding? && !s.threads[t].TakeTickets?
    ensures Safe(s')
  {
    var l :| Inv(s, l);
    assert PcOk(s, l, s.threads[t]);
    SubsetSize(l.counted, l.denied);
    assert s' == Goto(s, t, s'.threads[t]) && PcOk(s, l, s'.threads[t]);
    Frame(s, t, s', l, l);
  }

  lemma DequeueKeeps(s: State, t: nat, s': State)
    requires Safe(s) && Dequeues(s, t, s')
    ensures Safe(s')
  {
    var pc := s.threads[t];
    if pc.TakeTickets? {
      TakeTicketsKeeps(s, t, s');
    } else if pc.Holding? {
      match pc.stage {
        case ReloadTail(_) => ReloadTailKeeps(s, t, s', pc);
        case AddOvercommit(_) => AddOvercommitKeeps(s, t, s', pc);
        case Claim => ClaimKeeps(s, t, s', pc.my, pc.end);
      }
    } else {
      OtherStepKeeps(s, t, s');
    }
  }

  lemma StepKeeps(s: State, s': State)
    requires Safe(s) && SomeStep(s, s')
    ensures Safe(s')
  {
    if Enqueues(s, s') {
      EnqueueKeeps(s, s');
    } else {
      var t: nat :| Dequeues(s, t, s');
      DequeueKeeps(s, t, s');
    }
  }

  // ---- Main results ----

  lemma InitSafe(s: State)
    requires Init(s)
    ensures Safe(s)
  {
    assert Inv(s, Ledger({}, {}, {}));
  }

  // What holds at first and is kept by every step holds throughout a run.
  lemma {:induction false} RunInduction(b: seq<State>, i: nat, p: State -> bool)
    requires Run(b) && i < |b| && p(b[0])
    requires forall s, s' | p(s) && SomeStep(s, s') :: p(s')
    ensures p(b[i])
  {
    if i > 0 {
      RunInduction(b, i - 1, p);
      assert StepAt(b, i - 1);
    }
  }

  lemma RunSafe(b: seq<State>, i: nat)
    requires Run(b) && i < |b|
    ensures Safe(b[i])
  {
    forall s, s' | Safe(s) && SomeStep(s, s') ensures Safe(s') {
      StepKeeps(s, s');
    }
    InitSafe(b[0]);
    RunInduction(b, i, (s: State) => Safe(s));
  }

  /** The claimed indices never pass the published ones, in any interleaving of the producer with
      any number of single and bulk consumers. */
  lemma HeadNeverPassesTail(b: seq<State>, i: nat)
    requires Run(b) && i < |b|
    ensures b[i].head <= b[i].tail
  {
    RunSafe(b, i);
    var l :| Inv(b[i], l);
    FewTickets(l.used, l.denied, b[i].tail);
  }

  lemma {:induction false} HeadGrows(b: seq<State>, i: nat, j: nat)
    requires Run(b) && i <= j < |b|
    ensures b[i].head <= b[j].head && b[i].tail <= b[j].tail
    decreases j
  {
    if i < j {
      HeadGrows(b, i, j - 1);
      assert StepAt(b, j - 1);
    }
  }

  // At step i of the run, thread t claims the elements first .. first + got.
  predicate ClaimsAt(b: seq<State>, i: nat, t: nat, first: nat, got: nat) {
    && i + 1 < |b| && t < |b[i].threads|
    && b[i].threads[t].Holding? && b[i].threads[t].stage.Claim? && b[i + 1] == Advance(b[i], t)
    && b[i + 1].threads[t] == Took(first, got)
  }

  /** Every index is claimed at most once and only after it was published: two claims of a run, by
      whichever threads, are disjoint, the later one lying wholly above the earlier. */
  lemma EachIndexIsClaimedOnce(b: seq<State>, i: nat, j: nat, t: nat, t': nat, first: nat, got: nat, first': nat,
                               got': nat)
    requires Run(b) && i < j
    requires ClaimsAt(b, i, t, first, got) && ClaimsAt(b, j, t', first', got')
    ensures first + got <= first'
    ensures first + got <= b[i].tail && first' + got' <= b[j].tail
  {
    HeadGrows(b, i + 1, j);
    HeadNeverPassesTail(b, i + 1);
    HeadNeverPassesTail(b, j + 1);
  }

  predicate Quiescent(s: State) {
    forall t | 0 <= t < |s.threads| :: s.threads[t] == Idle
  }

  /** However the consumers raced, once all have returned the counters agree again: every ticket
      handed out either moved the head or was given back. */
  lemma QuiescentCountersAgree(b: seq<State>, i: nat)
    requires Run(b) && i < |b| && Quiescent(b[i])
    ensures b[i].optimistic == b[i].head + b[i].overcommit
  {
    RunSafe(b, i);
    var s := b[i];
    var l :| Inv(s, l);
    var all := Range(0, s.optimistic);
    assert l.used + l.counted == all;
    DisjointSize(l.used, l.counted);
  }

  /** Hence no element becomes unreachable: from such a state a dequeue that runs alone claims
      exactly min(max, tail - head) elements, starting at the head. */
  lemma LoneDequeueIsExact(b: seq<State>, t: nat, max: nat) returns (rest: seq<State>)
    requires Run(b) && Quiescent(b[|b| - 1]) && t < |b[|b| - 1].threads|
    requires b[|b| - 1].head < b[|b| - 1].tail
    ensures |rest| == 6 && Run(b + rest)
    ensures var s := b[|b| - 1]; var n := Min(max, s.tail - s.head);
      rest[5] == s.(head := s.head + n, optimistic := s.optimistic + n, threads := s.threads[t := Took(s.head, n)])
    ensures Dequeues(b[|b| - 1], t, rest[0]) && forall j | 0 <= j < 5 :: Dequeues(rest[j], t, rest[j + 1])
    ensures forall j | 0 <= j < 5 :: t < |rest[j].threads| && !rest[j].threads[t].Took?
  {
    var s := b[|b| - 1];
    QuiescentCountersAgree(b, |b| - 1);
    var s1 := StartDequeue(s, t, max);
    var s2 := Advance(s1, t);
    var s3 := Advance(s2, t);
    var s4 := Advance(s3, t);
    var s5 := Advance(s4, t);
    var s6 := Advance(s5, t);
    rest := [s1, s2, s3, s4, s5, s6];
    assert s6.threads == s.threads[t := Took(s.head, Min(max, s.tail - s.head))];
    var b' := b + rest;
    forall j | 0 <= j < |b'| - 1 ensures StepAt(b', j) {
      if j < |b| - 1 {
        assert StepAt(b, j) && b'[j + 1] == b[j + 1];
      } else {
        assert Dequeues(b'[j], t, b'[j + 1]);
      }
    }
  }

  // ---- One consumer ----

  // With a single consumer the counters differ by the tickets in its hand, and it knows the overcommit.
  predicate LoneOk(s: State) {
    |s.threads| == 1 && s.head <= s.tail &&
    match s.threads[0]
    case LoadOvercommit(_, tail) => s.optimistic == s.head + s.overcommit && s.head <= tail <= s.tail
    case LoadOptimistic(_, tail, over) => s.optimistic == s.head + s.overcommit && s.head <= tail <= s.tail &&
      over == s.overcommit
    case TakeTickets(want, over) =>
      s.optimistic == s.head + s.overcommit && s.head + want <= s.tail && over == s.overcommit
    case Holding(my, end, ReloadTail(over)) =>
      s.optimistic == end && my <= end && my == s.head + s.overcommit && s.head + (end - my) <= s.tail &&
        over == s.overcommit
    case Holding(my, end, AddOvercommit(got)) => got == 0 && my == end == s.optimistic == s.head + s.overcommit
    case Holding(my, end, Claim) =>
      s.optimistic == end && my <= end && my == s.head + s.overcommit && s.head + (end - my) <= s.tail
    case _ => s.optimistic == s.head + s.overcommit
  }

  lemma LoneStep(s: State, s': State)
    requires LoneOk(s) && SomeStep(s, s')
    ensures LoneOk(s')
  {
    if !Enqueues(s, s') {
      var t: nat :| Dequeues(s, t, s');
    }
  }

  lemma {:induction false} LoneRun(b: seq<State>, k: nat)
    requires Run(b) && k < |b| && |b[0].threads| == 1
    ensures LoneOk(b[k])
  {
    if k > 0 {
      LoneRun(b, k - 1);
      assert StepAt(b, k - 1);
      LoneStep(b[k - 1], b[k]);
    }
  }

  // At step j the thread starts a dequeue and loads this tail.
  predicate StartsAt(b: seq<State>, j: nat, max: nat, tail: int) {
    j + 1 < |b| && |b[j].threads| == 1 && b[j].tail == tail && b[j + 1] == StartDequeue(b[j], 0, max)
  }

  // Where a dequeue that has loaded no more than the tail came from, and that the head has not moved since.
  lemma {:induction false} LoneStart(b: seq<State>, k: nat) returns (j: nat)
    requires Run(b) && k < |b| && |b[0].threads| == 1
    requires b[k].threads != [] && (b[k].threads[0].LoadOvercommit? || b[k].threads[0].LoadOptimistic?)
    ensures j < k && StartsAt(b, j, b[k].threads[0].max, b[k].threads[0].tail) && b[j].head == b[k].head
  {
    LoneRun(b, k - 1);
    assert StepAt(b, k - 1);
    if Enqueues(b[k - 1], b[k]) {
      j := LoneStart(b, k - 1);
    } else {
      var t: nat :| Dequeues(b[k - 1], t, b[k]);
      if b[k - 1].threads[0] == Idle {
        j := k - 1;
      } else {
        j := LoneStart(b, k - 1);
      }
    }
  }

  /** A single consumer's dequeue takes back no ticket, and it comes away with nothing only if the queue was
      empty when it loaded the tail. */
  lemma LoneFailureMeansEmpty(b: seq<State>, k: nat) returns (j: nat)
    requires Run(b) && k + 1 < |b| && |b[0].threads| == 1
    requires b[k].threads != [] && b[k].threads[0].LoadOptimistic? && b[k + 1] == Advance(b[k], 0)
    requires b[k + 1].threads[0] == Idle
    ensures j < k && StartsAt(b, j, b[k].threads[0].max, b[k].threads[0].tail) && b[j].head == b[j].tail
  {
    LoneRun(b, k);
    j := LoneStart(b, k);
  }

  // ---- What a dequeue takes, whoever else is at it ----

  // The moments at which a dequeue of up to max elements reads the tail, the overcommit and the optimistic
  // count, takes its tickets, and reads the tail again.
  datatype Reads = Reads(max: nat, tail: nat, over: nat, optimistic: nat, tickets: nat, reload: nat)

  // How many tickets it should take, ...
  function Wanted(b: seq<State>, r: Reads): int
    requires r.tail < |b| && r.over < |b| && r.optimistic < |b|
  {
    Min(r.max, b[r.tail].tail + b[r.over].overcommit - b[r.optimistic].optimistic)
  }

  // ... and how many of those are good.
  function Usable(b: seq<State>, r: Reads): int
    requires r.reload < |b| && r.over < |b| && r.tickets < |b|
  {
    b[r.reload].tail + b[r.over].overcommit - b[r.tickets].optimistic
  }

  predicate InOrder(r: Reads, k: nat) {
    r.tail < r.over < r.optimistic < r.tickets < r.reload < k
  }

  // What thread t has in its locals at moment k comes from these reads.
  predicate Follows(b: seq<State>, k: nat, t: nat, r: Reads) {
    && k < |b| && t < |b[k].threads| &&
    match b[k].threads[t]
    case Idle => true
    case LoadOvercommit(max, tail) => max == r.max && r.tail < k && tail == b[r.tail].tail
    case LoadOptimistic(max, tail, over) =>
      max == r.max && r.tail < r.over < k && tail == b[r.tail].tail && over == b[r.over].overcommit
    case TakeTickets(want, over) =>
      && r.tail < r.over < r.optimistic < k && over == b[r.over].overcommit && want == Wanted(b, r)
      && b[r.tail].tail + b[r.over].overcommit > b[r.optimistic].optimistic
    case Holding(my, end, stage) =>
      && r.tail < r.over < r.optimistic < r.tickets < k && my == b[r.tickets].optimistic
      && b[r.tail].tail + b[r.over].overcommit > b[r.optimistic].optimistic
      && (stage.ReloadTail? ==> stage.over == b[r.over].overcommit && end - my == Wanted(b, r))
      && (stage.AddOvercommit? ==>
            InOrder(r, k) && end - my == Wanted(b, r) && stage.got == Positive(Usable(b, r)) &&
            (stage.got < end - my || Usable(b, r) <= 0))
      && (stage.Claim? ==> InOrder(r, k) && end - my == Min(Wanted(b, r), Usable(b, r)) && Usable(b, r) > 0)
    case Took(_, got) => InOrder(r, k) && got == Min(Wanted(b, r), Usable(b, r)) && Usable(b, r) > 0
  }

  function Positive(x: int): nat { if x < 0 then 0 else x }

  lemma FollowsOn(b: seq<State>, k: nat, t: nat, r: Reads) returns (r': Reads)
    requires k + 1 < |b| && Follows(b, k, t, r) && Dequeues(b[k], t, b[k + 1])
    ensures Follows(b, k + 1, t, r')
    ensures b[k].threads[t] != Idle ==> r'.max == r.max && r'.tail == r.tail
  {
    r' := r;
    match b[k].threads[t]
    case Idle =>
      var max: nat :| b[k + 1] == StartDequeue(b[k], t, max);
      r' := r.(max := max, tail := k);
    case LoadOvercommit(_, _) => r' := r.(over := k);
    case LoadOptimistic(_, _, _) => r' := r.(optimistic := k);
    case TakeTickets(_, _) => r' := r.(tickets := k);
    case Holding(_, _, ReloadTail(_)) => r' := r.(reload := k);
    case _ =>
  }

  lemma FollowsStill(b: seq<State>, k: nat, t: nat, r: Reads)
    requires k + 1 < |b| && Follows(b, k, t, r) && t < |b[k + 1].threads| && b[k + 1].threads[t] == b[k].threads[t]
    ensures Follows(b, k + 1, t, r)
  {
  }

  lemma OthersStay(s: State, t': nat, s': State, t: nat)
    requires Dequeues(s, t', s')
    ensures |s'.threads| == |s.threads| && (t != t' && t < |s.threads| ==> s'.threads[t] == s.threads[t])
  {
  }

  lemma {:induction false} Reading(b: seq<State>, k: nat, t: nat) returns (r: Reads)
    requires Run(b) && k < |b| && t < |b[k].threads|
    ensures Follows(b, k, t, r)
  {
    if k == 0 {
      r := Reads(0, 0, 0, 0, 0, 0);
    } else {
      assert StepAt(b, k - 1);
      if Enqueues(b[k - 1], b[k]) {
        r := Reading(b, k - 1, t);
        FollowsStill(b, k - 1, t, r);
      } else {
        var t': nat :| Dequeues(b[k - 1], t', b[k]);
        OthersStay(b[k - 1], t', b[k], t);
        r := Reading(b, k - 1, t);
        if t' == t {
          r := FollowsOn(b, k - 1, t, r);
        } else {
          FollowsStill(b, k - 1, t, r);
        }
      }
    }
  }

  /** In every interleaving a claim is exactly as large as it can be by what its thread has read: all that it
      wanted, or as much as was published when it looked again. */
  lemma ClaimIsExact(b: seq<State>, k: nat, t: nat) returns (r: Reads)
    requires Run(b) && k < |b| && t < |b[k].threads| && b[k].threads[t].Took?
    ensures InOrder(r, k)
    ensures b[k].threads[t].got == Min(Wanted(b, r), Usable(b, r)) && Usable(b, r) > 0
  {
    r := Reading(b, k, t);
  }

  /** And a dequeue comes away with nothing only if there was nothing by what it has read: before it took
      tickets or, for the tickets it took, after. */
  lemma FailureIsExact(b: seq<State>, k: nat, t: nat) returns (r: Reads)
    requires Run(b) && k + 1 < |b| && t < |b[k].threads| && Dequeues(b[k], t, b[k + 1])
    requires b[k].threads[t] != Idle && !b[k].threads[t].Took? && b[k + 1].threads[t] == Idle
    ensures || (r.tail < r.over < r.optimistic == k &&
                b[r.tail].tail + b[r.over].overcommit <= b[r.optimistic].optimistic)
            || (InOrder(r, k) && Usable(b, r) <= 0)
  {
    r := Reading(b, k, t);
    if b[k].threads[t].LoadOptimistic? {
      r := r.(optimistic := k);
    }
  }
}
