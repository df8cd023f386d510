/** What the calls of the actor system achieve. `Actors` shows that nothing goes wrong; here it is shown
    that a call does what it was made for: `execute` accepts a task exactly if its actor is there, `spawn`
    leaves an actor in the registry, `stopAll` stops all of them and can always return, and an actor's
    thread overlooks no task.
 */
module ActorCalls {
  import opened Actors

  // ---- Tasks are accepted by their sender's own step only ----

  // Thread t is about to put a task into x's mailbox, and the step from s to s' is its step.
  predicate PutsIn(s: State, s': State, t: nat, x: nat) {
    && t < |s.threads| && t < |s'.threads| && s'.threads[t] != s.threads[t]
    && (s.threads[t].ExecEnqueue? || s.threads[t].DirectEnqueue?) && s.threads[t].a == x
  }

  // What actor x has said yes to.
  function AcceptedBy(s: State, x: nat, t: nat): seq<Task> {
    if x < |s.actors| && t < |s.actors[x].accepted| then s.actors[x].accepted[t] else []
  }

  lemma OnlyItsStepCounts(b: seq<State>, k: nat, x: nat, t: nat)
    requires Behavior(b) && k + 1 < |b| && x < |b[k].actors| && t < |b[k].threads|
    ensures x < |b[k + 1].actors| && |b[k + 1].threads| == |b[k].threads|
    ensures AcceptedBy(b[k + 1], x, t) ==
            AcceptedBy(b[k], x, t) + if PutsIn(b[k], b[k + 1], t, x) then [b[k].threads[t].task] else []
  {
    var s, s' := b[k], b[k + 1];
    RunSafe(b, k);
    assert StepAt(b, k) && ActorOk(s.actors[x], |s.threads|);
    if SomeClient(s, s') {
      var t': nat :| ClientStep(s, t', s');
      assert ClientOk(s, t', s.threads[t']);
      ClientStepOnActor(s, t', s', x);
      OneClientsStep(s, t', s', x, t);
    } else {
      var a: nat :| ActorStep(s, a, s');
      ActorMoveKeeps(s.actors[a], s'.actors[a], |s.threads|);
    }
  }

  lemma OneClientsStep(s: State, t': nat, s': State, x: nat, t: nat)
    requires Inv(s) && ClientStep(s, t', s') && x < |s.actors| && t < |s.threads|
    ensures |s'.threads| == |s.threads|
    ensures AcceptedBy(s', x, t) == AcceptedBy(s, x, t) + if PutsIn(s, s', t, x) then [s.threads[t].task] else []
  {
    assert ClientOk(s, t', s.threads[t']) && ActorOk(s.actors[x], |s.threads|);
    if s.threads[t'].StopNext? && s.threads[t'].dead != {} {
      var pc := s.threads[t'];
      var y: nat :| y in pc.dead && StopsFlag(s, t', y, pc.dead, pc.swept, s');
    }
  }

  // A thread inside a critical section keeps others from the registry.
  lemma RegistryIsHeld(b: seq<State>, k: nat, t: nat)
    requires Behavior(b) && k + 1 < |b| && t < |b[k].threads| && Critical(b[k].threads[t])
    requires !b[k].threads[t].SpawnStart? && !b[k].threads[t].StopSweep?
    ensures b[k + 1].registry == b[k].registry
  {
    RunSafe(b, k);
    assert StepAt(b, k) && ClientOk(b[k], t, b[k].threads[t]);
    if SomeClient(b[k], b[k + 1]) {
      var t': nat :| ClientStep(b[k], t', b[k + 1]);
      assert ClientOk(b[k], t', b[k].threads[t']);
    }
  }

  // How thread t goes on: it stays where it is, or takes its own step.
  lemma ThreadMoves(b: seq<State>, k: nat, t: nat)
    requires Behavior(b) && k + 1 < |b| && t < |b[k].threads|
    ensures |b[k + 1].threads| == |b[k].threads|
    ensures b[k + 1].threads[t] == b[k].threads[t] || ClientStep(b[k], t, b[k + 1])
  {
    assert StepAt(b, k);
  }

  // ---- ActorSystem::execute ----

  predicate Executing(pc: Pc, a: nat, task: Task) {
    pc == ExecFind(a, task) || pc == ExecCheck(a, task) || pc == ExecEnqueue(a, task)
  }

  // Thread t looks a up for this task at moment i and has its answer at moment j.
  predicate RegistryCall(b: seq<State>, i: nat, j: nat, t: nat, a: nat, task: Task) {
    && i < j < |b| && t < |b[i].threads| && b[i].threads[t] == ExecFind(a, task)
    && (forall k | i <= k < j :: t < |b[k].threads| && Executing(b[k].threads[t], a, task))
    && t < |b[j].threads| && b[j].threads[t].ExecUnlock?
  }

  // What such a call has come to at moment k.
  predicate CallStands(b: seq<State>, i: nat, k: nat, t: nat, a: nat, task: Task, x: nat) {
    && i <= k < |b| && t < |b[k].threads| && x < |b[k].actors|
    && var before, now := AcceptedBy(b[i], x, t), AcceptedBy(b[k], x, t);
       match b[k].threads[t]
       case ExecFind(_, _) => now == before && (a in b[k].registry <==> a in b[i].registry)
       case ExecUnlock(ok) => (ok <==> a in b[i].registry) && now == before + if ok && x == a then [task] else []
       case _ => now == before && a in b[i].registry
  }

  lemma CallGoesOn(b: seq<State>, i: nat, k: nat, t: nat, a: nat, task: Task, x: nat)
    requires Behavior(b) && k + 1 < |b| && CallStands(b, i, k, t, a, task, x) && Executing(b[k].threads[t], a, task)
    ensures CallStands(b, i, k + 1, t, a, task, x)
  {
    RunSafe(b, k);
    assert ClientOk(b[k], t, b[k].threads[t]);
    RegistryIsHeld(b, k, t);
    ThreadMoves(b, k, t);
    OnlyItsStepCounts(b, k, x, t);
  }

  lemma {:induction false} CallIsFollowed(b: seq<State>, i: nat, k: nat, t: nat, a: nat, task: Task, x: nat)
    requires Behavior(b) && i <= k < |b| && t < |b[i].threads| && b[i].threads[t] == ExecFind(a, task)
    requires x < |b[i].actors|
    requires forall m | i <= m < k :: t < |b[m].threads| && Executing(b[m].threads[t], a, task)
    ensures CallStands(b, i, k, t, a, task, x)
  {
    if i < k {
      CallIsFollowed(b, i, k - 1, t, a, task, x);
      CallGoesOn(b, i, k - 1, t, a, task, x);
    }
  }

  /** A call of `ActorSystem::execute` answers yes exactly if the actor was in the registry when it was looked
      up, and then its mailbox, and no other, has accepted the task; otherwise none has. */
  lemma RegistryCallIsAccepted(b: seq<State>, i: nat, j: nat, t: nat, a: nat, task: Task, x: nat)
    requires Behavior(b) && RegistryCall(b, i, j, t, a, task) && x < |b[i].actors|
    ensures x < |b[j].actors| && t < |b[i].actors[x].accepted| && t < |b[j].actors[x].accepted|
    ensures b[j].threads[t].ok <==> a in b[i].registry
    ensures b[j].actors[x].accepted[t] == b[i].actors[x].accepted[t] +
              if x == a && a in b[i].registry then [task] else []
  {
    CallIsFollowed(b, i, j, t, a, task, x);
    ActorIsOk(b, i, x);
    ActorIsOk(b, j, x);
    ThreadsStay(b, i, j);
  }

  lemma {:induction false} ThreadsStay(b: seq<State>, i: nat, j: nat)
    requires Behavior(b) && i <= j < |b|
    ensures |b[j].threads| == |b[i].threads|
    decreases j
  {
    if i < j {
      ThreadsStay(b, i, j - 1);
      assert StepAt(b, j - 1);
    }
  }

  // ---- Actor::execute ----

  // Thread t tests a's flag in the step after moment i and has its answer at moment j.
  predicate DirectCall(b: seq<State>, i: nat, j: nat, t: nat, a: nat, task: Task) {
    && i < j < |b| && t < |b[i].threads| && b[i].threads[t] == DirectCheck(a, task)
    && (forall k | i < k < j :: t < |b[k].threads| && b[k].threads[t] == DirectEnqueue(a, task))
    && t < |b[j].threads| && b[j].threads[t].Answer?
  }

  predicate DirectStands(b: seq<State>, i: nat, k: nat, t: nat, a: nat, task: Task, x: nat) {
    && i < k < |b| && t < |b[k].threads| && x < |b[k].actors| && a < |b[i].actors|
    && var before, now := AcceptedBy(b[i], x, t), AcceptedBy(b[k], x, t);
       match b[k].threads[t]
       case Answer(ok) =>
         (ok <==> b[i].actors[a].running) && now == before + if ok && x == a then [task] else []
       case _ => now == before && b[i].actors[a].running
  }

  lemma {:induction false} DirectIsFollowed(b: seq<State>, i: nat, k: nat, t: nat, a: nat, task: Task, x: nat)
    requires Behavior(b) && i < k < |b| && t < |b[i].threads| && b[i].threads[t] == DirectCheck(a, task)
    requires x < |b[i].actors|
    requires forall m | i < m < k :: t < |b[m].threads| && b[m].threads[t] == DirectEnqueue(a, task)
    requires t < |b[k].threads| && (b[k].threads[t] == DirectEnqueue(a, task) || b[k].threads[t].Answer?)
    ensures DirectStands(b, i, k, t, a, task, x)
  {
    if i + 1 < k {
      DirectIsFollowed(b, i, k - 1, t, a, task, x);
    }
    RunSafe(b, k - 1);
    assert ClientOk(b[k - 1], t, b[k - 1].threads[t]);
    ThreadMoves(b, k - 1, t);
    OnlyItsStepCounts(b, k - 1, x, t);
  }

  /** A call of `Actor::execute` answers yes exactly if the flag was set when it was tested, and then the
      mailbox has accepted the task. */
  lemma DirectCallIsAccepted(b: seq<State>, i: nat, j: nat, t: nat, a: nat, task: Task, x: nat)
    requires Behavior(b) && DirectCall(b, i, j, t, a, task) && x < |b[i].actors|
    ensures a < |b[i].actors| && x < |b[j].actors|
    ensures t < |b[i].actors[x].accepted| && t < |b[j].actors[x].accepted|
    ensures b[j].threads[t].ok <==> b[i].actors[a].running
    ensures b[j].actors[x].accepted[t] == b[i].actors[x].accepted[t] +
              if x == a && b[i].actors[a].running then [task] else []
  {
    DirectIsFollowed(b, i, j, t, a, task, x);
    ActorIsOk(b, i, x);
    ActorIsOk(b, j, x);
    ThreadsStay(b, i, j);
  }

  // ---- spawn ----

  // Inside spawn, until the lock is released.
  predicate Spawning(pc: Pc) {
    pc.SpawnLock? || pc.SpawnStart? || pc.SpawnUnlock?
  }

  lemma {:induction false} ActorsGrow(b: seq<State>, i: nat, j: nat)
    requires Behavior(b) && i <= j < |b|
    ensures |b[i].actors| <= |b[j].actors|
    decreases j
  {
    if i < j {
      ActorsGrow(b, i, j - 1);
      assert StepAt(b, j - 1);
      if SomeClient(b[j - 1], b[j]) {
        RunSafe(b, j - 1);
        var t: nat :| ClientStep(b[j - 1], t, b[j]);
        StepGrows(b[j - 1], t, b[j]);
      }
    }
  }

  lemma StepGrows(s: State, t: nat, s': State)
    requires Inv(s) && ClientStep(s, t, s')
    ensures |s.actors| <= |s'.actors|
  {
    var pc := s.threads[t];
    if pc.StopNext? && pc.dead != {} {
      var a: nat :| a in pc.dead && StopsFlag(s, t, a, pc.dead, pc.swept, s');
    }
  }

  /** When spawn is about to release the lock, an actor that was not there when it was called is in the
      registry, and running. */
  lemma {:induction false} SpawnRegisters(b: seq<State>, i: nat, j: nat, t: nat) returns (a: nat)
    requires Behavior(b) && i < j < |b| && t < |b[i].threads| && b[i].threads[t] == SpawnLock
    requires forall k | i <= k <= j :: t < |b[k].threads| && Spawning(b[k].threads[t])
    requires b[j].threads[t] == SpawnUnlock
    ensures |b[i].actors| <= a < |b[j].actors| && a in b[j].registry && b[j].actors[a].running
    decreases j
  {
    ThreadMoves(b, j - 1, t);
    if b[j - 1].threads[t] == SpawnUnlock {
      a := SpawnRegisters(b, i, j - 1, t);
      RegistryIsHeld(b, j - 1, t);
      ActorsGrow(b, j - 1, j);
    } else {
      a := |b[j - 1].actors|;
      ActorsGrow(b, i, j - 1);
    }
    RunSafe(b, j);
  }

  // A stopAll that has a in hand and has not stopped it yet.
  ghost predicate Doomed(s: State, a: nat) {
    exists t :: 0 <= t < |s.threads| && a in Dead(s.threads[t])
  }

  /** An actor runs exactly as long as it is in the registry, or in the hands of a stopAll that has not come
      to it yet. */
  lemma {:induction false} RunningIffReachable(b: seq<State>, i: nat, a: nat)
    requires Behavior(b) && i < |b| && a < |b[i].actors|
    ensures b[i].actors[a].running <==> a in b[i].registry || Doomed(b[i], a)
  {
    RunSafe(b, i);
    if Doomed(b[i], a) {
      var t :| 0 <= t < |b[i].threads| && a in Dead(b[i].threads[t]);
      assert ClientOk(b[i], t, b[i].threads[t]);
    }
    if i > 0 && b[i].actors[a].running {
      assert StepAt(b, i - 1);
      var s, s' := b[i - 1], b[i];
      RunSafe(b, i - 1);
      if a < |s.actors| {
        RunningIffReachable(b, i - 1, a);
        ActorsStay(b, i - 1, i, a);
        StaysReachable(s, s', a);
      } else {
        NewIsRegistered(s, s', a);
      }
    }
  }

  lemma NewIsRegistered(s: State, s': State, a: nat)
    requires Inv(s) && SomeStep(s, s') && |s.actors| <= a < |s'.actors|
    ensures a in s'.registry
  {
    if SomeClient(s, s') {
      var t: nat :| ClientStep(s, t, s');
    }
  }

  lemma StaysReachable(s: State, s': State, a: nat)
    requires Inv(s) && SomeStep(s, s') && a < |s.actors| && a < |s'.actors| && s'.actors[a].running
    requires a in s.registry || Doomed(s, a)
    ensures a in s'.registry || Doomed(s', a)
  {
    if SomeClient(s, s') {
      var t: nat :| ClientStep(s, t, s');
      if Doomed(s, a) {
        var t' :| 0 <= t' < |s.threads| && a in Dead(s.threads[t']);
        StaysDoomed(s, t, s', t', a);
      } else if s.threads[t].StopSweep? {
        assert a in Dead(s'.threads[t]);
      } else if s.threads[t].StopNext? && s.threads[t].dead != {} {
        var x: nat :| x in s.threads[t].dead && StopsFlag(s, t, x, s.threads[t].dead, s.threads[t].swept, s');
      }
    } else {
      var x: nat :| ActorStep(s, x, s');
      if Doomed(s, a) {
        var t' :| 0 <= t' < |s.threads| && a in Dead(s.threads[t']);
        assert a in Dead(s'.threads[t']);
      }
    }
  }

  lemma StaysDoomed(s: State, t: nat, s': State, t': nat, a: nat)
    requires Inv(s) && ClientStep(s, t, s') && t' < |s.threads| && a in Dead(s.threads[t'])
    requires a < |s'.actors| && s'.actors[a].running
    ensures Doomed(s', a)
  {
    var pc := s.threads[t];
    assert ClientOk(s, t', s.threads[t']);
    if pc.StopNext? && pc.dead != {} {
      var x: nat :| x in pc.dead && StopsFlag(s, t, x, pc.dead, pc.swept, s');
    }
    assert a in Dead(s'.threads[t']);
  }

  // ---- stopAll ----

  // At step k a stopAll of thread t takes a from the registry.
  predicate SweepsAt(b: seq<State>, k: nat, t: nat, a: nat) {
    && k + 1 < |b| && t < |b[k].threads| && b[k].threads[t].StopSweep? && a in b[k].registry
    && t < |b[k + 1].threads| && HasSwept(b[k + 1].threads[t], a) && a !in b[k + 1].registry
  }

  // Only a sweep takes an actor from the registry, and only spawn puts a new one in.
  lemma RegistryMoves(b: seq<State>, k: nat, a: nat) returns (t: nat)
    requires Behavior(b) && k + 1 < |b| && a < |b[k].actors|
    ensures a in b[k + 1].registry ==> a in b[k].registry
    ensures a in b[k].registry && a !in b[k + 1].registry ==> SweepsAt(b, k, t, a)
  {
    t := 0;
    assert StepAt(b, k);
    if SomeClient(b[k], b[k + 1]) {
      RunSafe(b, k);
      t :| ClientStep(b[k], t, b[k + 1]);
      StepOnRegistry(b[k], t, b[k + 1], a);
    }
  }

  lemma StepOnRegistry(s: State, t: nat, s': State, a: nat)
    requires Inv(s) && ClientStep(s, t, s') && a < |s.actors|
    ensures a in s'.registry ==> a in s.registry
    ensures a in s.registry && a !in s'.registry ==> s.threads[t].StopSweep? && s'.threads[t] == StopUnlock(s.registry)
    ensures |s'.threads| == |s.threads|
  {
    var pc := s.threads[t];
    if pc.StopNext? && pc.dead != {} {
      var x: nat :| x in pc.dead && StopsFlag(s, t, x, pc.dead, pc.swept, s');
    }
  }

  lemma {:induction false} LeavesTheRegistry(b: seq<State>, m: nat, i: nat, a: nat) returns (k: nat, t: nat)
    requires Behavior(b) && m <= i < |b| && a in b[m].registry && a !in b[i].registry
    ensures m <= k < i && SweepsAt(b, k, t, a)
    decreases i
  {
    RunSafe(b, m);
    ActorsStay(b, m, i - 1, a);
    t := RegistryMoves(b, i - 1, a);
    if a !in b[i - 1].registry {
      k, t := LeavesTheRegistry(b, m, i - 1, a);
    } else {
      k := i - 1;
    }
  }

  lemma {:induction false} NeverComesBack(b: seq<State>, k: nat, i: nat, a: nat)
    requires Behavior(b) && k <= i < |b| && a < |b[k].actors| && a !in b[k].registry
    ensures a !in b[i].registry
    decreases i
  {
    if k < i {
      NeverComesBack(b, k, i - 1, a);
      ActorsStay(b, k, i - 1, a);
      var t := RegistryMoves(b, i - 1, a);
    }
  }

  lemma {:induction false} PassesItsSweep(b: seq<State>, m: nat, i: nat, t: nat) returns (k: nat)
    requires Behavior(b) && StopAllCall(b, m, i, t) && t < |b[i].threads|
    requires (Stopping(b[i].threads[t]) || b[i].threads[t].Stopped?) && !b[i].threads[t].StopLock?
    requires !b[i].threads[t].StopSweep?
    ensures m <= k < i && b[k].threads[t] == StopSweep && b[k + 1].registry == {}
    decreases i
  {
    ThreadMoves(b, i - 1, t);
    if b[i - 1].threads[t].StopSweep? {
      k := i - 1;
    } else {
      k := PassesItsSweep(b, m, i - 1, t);
    }
  }

  lemma {:induction false} SweptStays(b: seq<State>, k: nat, i: nat, t: nat, a: nat)
    requires Behavior(b) && k < i < |b| && t < |b[k + 1].threads| && HasSwept(b[k + 1].threads[t], a)
    requires forall j | k + 1 <= j < i :: t < |b[j].threads| && Stopping(b[j].threads[t])
    requires t < |b[i].threads| && (Stopping(b[i].threads[t]) || b[i].threads[t].Stopped?)
    ensures HasSwept(b[i].threads[t], a)
    decreases i
  {
    if k + 1 < i {
      SweptStays(b, k, i - 1, t, a);
      ThreadMoves(b, i - 1, t);
    }
  }

  // Not the one that is about to be deleted.
  predicate IsDone(pc: Pc, a: nat) {
    Buried(pc, a) && (pc.StopDelete? ==> a != pc.a)
  }

  lemma {:induction false} DoneIsDeleted(b: seq<State>, i: nat, t: nat, a: nat)
    requires Behavior(b) && i < |b| && t < |b[i].threads| && IsDone(b[i].threads[t], a)
    ensures a in b[i].deleted
  {
    if i > 0 {
      assert StepAt(b, i - 1);
      ThreadMoves(b, i - 1, t);
      if IsDone(b[i - 1].threads[t], a) {
        DoneIsDeleted(b, i - 1, t, a);
        DeletedGrows(b[i - 1], b[i], a);
      }
    }
  }

  lemma DeletedGrows(s: State, s': State, a: nat)
    requires SomeStep(s, s') && a in s.deleted
    ensures a in s'.deleted
  {
    if SomeClient(s, s') {
      var t: nat :| ClientStep(s, t, s');
      if s.threads[t].StopNext? && s.threads[t].dead != {} {
        var pc := s.threads[t];
        var x: nat :| x in pc.dead && StopsFlag(s, t, x, pc.dead, pc.swept, s');
      }
    }
  }

  /** When stopAll returns, each actor that was registered when it was called is gone from the registry:
      swept at some moment since by this call, which has then stopped and deleted it, or by another stopAll
      at the same time. */
  lemma StopAllStopsAll(b: seq<State>, m: nat, i: nat, t: nat, a: nat) returns (k: nat, t': nat)
    requires Behavior(b) && StopAllCall(b, m, i, t) && a in b[m].registry
    requires t < |b[i].threads| && b[i].threads[t].Stopped?
    ensures a !in b[i].registry && m <= k < i && SweepsAt(b, k, t', a)
    ensures t' == t ==> a < |b[i].actors| && a in b[i].deleted && b[i].actors[a].pc == Exited
  {
    var j := PassesItsSweep(b, m, i, t);
    RunSafe(b, m);
    ActorsStay(b, m, j + 1, a);
    NeverComesBack(b, j + 1, i, a);
    k, t' := LeavesTheRegistry(b, m, i, a);
    if t' == t {
      SweptStays(b, k, i, t, a);
      DoneIsDeleted(b, i, t, a);
      RunSafe(b, i);
    }
  }

  // ---- try_dequeue ----

  // Since moment j, at which u's FIFO was empty, a's thread has been in the same try_dequeue.
  predicate EmptySince(b: seq<State>, j: nat, k: nat, a: nat, u: nat) {
    && j < k < |b| && a < |b[j].actors| && u < |b[j].actors[a].box| && b[j].actors[a].box[u] == []
    && forall m | j <= m < k :: a < |b[m].actors| && Dequeues(b[m].actors[a].pc)
  }

  lemma {:induction false} SeenWasEmpty(b: seq<State>, k: nat, a: nat, u: nat) returns (j: nat)
    requires Behavior(b) && k < |b| && a < |b[k].actors| && Dequeues(b[k].actors[a].pc) && u in b[k].actors[a].pc.seen
    ensures EmptySince(b, j, k, a, u)
  {
    FreshIsNotSeen(b, k, a);
    ActorIsOk(b, k - 1, a);
    var c := StepOnActor(b, k - 1, a);
    if Dequeues(b[k - 1].actors[a].pc) && u in b[k - 1].actors[a].pc.seen {
      j := SeenWasEmpty(b, k - 1, a, u);
    } else {
      j := k - 1;
    }
  }

  lemma FreshIsNotSeen(b: seq<State>, k: nat, a: nat)
    requires Behavior(b) && k < |b| && a < |b[k].actors| && Dequeues(b[k].actors[a].pc)
    ensures k > 0 && a < |b[k - 1].actors|
  {
    if k > 0 {
      assert StepAt(b, k - 1);
      if SomeClient(b[k - 1], b[k]) {
        var t: nat :| ClientStep(b[k - 1], t, b[k]);
      } else {
        var x: nat :| ActorStep(b[k - 1], x, b[k]);
      }
    }
  }

  /** An actor's thread comes away from its mailbox without a task only if it has found each sender's FIFO
      empty in that very call. */
  lemma EmptyHanded(b: seq<State>, k: nat, a: nat, u: nat) returns (j: nat)
    requires Behavior(b) && k + 1 < |b| && a < |b[k].actors| && a < |b[k + 1].actors| && u < |b[k].threads|
    requires Dequeues(b[k].actors[a].pc) && (b[k + 1].actors[a].pc.Test? || b[k + 1].actors[a].pc.Exited?)
    ensures EmptySince(b, j, k, a, u)
  {
    ActorIsOk(b, k, a);
    var c := StepOnActor(b, k, a);
    j := SeenWasEmpty(b, k, a, u);
  }
}
