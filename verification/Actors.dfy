/** `ActorSystem`: actors with one thread and one mailbox each, found through a registry that a
    mutex guards, and stopped together by `stopAll`.

    Client threads (any number) call `spawn`, `ActorSystem::execute`, `stopAll` and, past the
    registry, `Actor::execute`; actor threads run `Actor::run`. Every access to shared state is
    one step. A mailbox keeps one FIFO per sending thread. `try_dequeue` looks at them one after the
    other; it may serve any that is not empty, and it reports an empty mailbox once it has seen each
    of them empty, which need not have been at the same moment.
 */
module Actors {
  // `direct` records that it came by Actor::execute, past the registry; no step reads it.
  datatype Task = Task(sender: nat, content: int, direct: bool)

  datatype ActorPc =
    | Test // while (_isRun)
    | Serve(seen: set<nat>) // _mailbox.try_dequeue in the main loop; these FIFOs were empty
    | Run(task: Task)
    | Drain(seen: set<nat>) // _mailbox.try_dequeue in the final loop
    | DrainRun(task: Task)
    | Exited

  // `accepted` and `done` record what `execute` said yes to and what was run; no step reads them.
  datatype Actor = Actor(
    running: bool,
    box: seq<seq<Task>>,
    pc: ActorPc,
    accepted: seq<seq<Task>>,
    done: seq<Task>
  )

  datatype Pc =
    | Idle
    | SpawnLock | SpawnStart | SpawnUnlock
    | ExecLock(a: nat, task: Task) // ActorSystem::execute
    | ExecFind(a: nat, task: Task)
    | ExecCheck(a: nat, task: Task)
    | ExecEnqueue(a: nat, task: Task)
    | ExecUnlock(ok: bool)
    | DirectCheck(a: nat, task: Task) // Actor::execute on a pointer kept from spawn
    | DirectEnqueue(a: nat, task: Task)
    | Answer(ok: bool)
    | StopLock | StopSweep
    | StopUnlock(swept: set<nat>)
    | StopNext(dead: set<nat>, swept: set<nat>)
    | StopJoin(a: nat, dead: set<nat>, swept: set<nat>)
    | StopDelete(a: nat, dead: set<nat>, swept: set<nat>)
    | Stopped(swept: set<nat>) // stopAll returns

  datatype Lock = Free | HeldBy(t: nat)

  datatype State = State(
    actors: seq<Actor>,
    registry: set<nat>,
    deleted: set<nat>,
    lock: Lock,
    threads: seq<Pc>
  )

  function Goto(s: State, t: nat, pc: Pc): State
    requires t < |s.threads|
  {
    s.(threads := s.threads[t := pc])
  }

  function Fresh(senders: nat): Actor {
    Actor(true, seq(senders, _ => []), Test, seq(senders, _ => []), [])
  }

  function Enqueue(act: Actor, task: Task): Actor {
    if task.sender < |act.box| && task.sender < |act.accepted|
    then act.(box := act.box[task.sender := act.box[task.sender] + [task]],
              accepted := act.accepted[task.sender := act.accepted[task.sender] + [task]])
    else act
  }

  // ---- Steps of client threads ----

  predicate Acquires(s: State, t: nat, pc: Pc, s': State)
    requires t < |s.threads|
  {
    s.lock == Free && s' == Goto(s, t, pc).(lock := HeldBy(t))
  }

  ghost predicate ClientStep(s: State, t: nat, s': State) {
    t < |s.threads| &&
    match s.threads[t]
    case Idle =>
      exists pc :: s' == Goto(s, t, pc) && Begins(pc, t, |s.actors|)
    case SpawnLock => Acquires(s, t, SpawnStart, s')
    case SpawnStart =>
      s' == Goto(s, t, SpawnUnlock)
            .(actors := s.actors + [Fresh(|s.threads|)], registry := s.registry + {|s.actors|})
    case SpawnUnlock => s' == Goto(s, t, Idle).(lock := Free)
    case ExecLock(a, task) => Acquires(s, t, ExecFind(a, task), s')
    case ExecFind(a, task) => s' == Goto(s, t, if a in s.registry then ExecCheck(a, task) else ExecUnlock(false))
    case ExecCheck(a, task) =>
      a < |s.actors| && s' == Goto(s, t, if s.actors[a].running then ExecEnqueue(a, task) else ExecUnlock(false))
    case ExecEnqueue(a, task) =>
      a < |s.actors| && s' == Goto(s, t, ExecUnlock(true)).(actors := s.actors[a := Enqueue(s.actors[a], task)])
    case ExecUnlock(_) => s' == Goto(s, t, Idle).(lock := Free)
    case DirectCheck(a, task) =>
      a < |s.actors| && s' == Goto(s, t, if s.actors[a].running then DirectEnqueue(a, task) else Answer(false))
    case DirectEnqueue(a, task) =>
      a < |s.actors| && s' == Goto(s, t, Answer(true)).(actors := s.actors[a := Enqueue(s.actors[a], task)])
    case Answer(_) => s' == Goto(s, t, Idle)
    case StopLock => Acquires(s, t, StopSweep, s')
    case StopSweep => s' == Goto(s, t, StopUnlock(s.registry)).(registry := {})
    case StopUnlock(swept) => s' == Goto(s, t, StopNext(swept, swept)).(lock := Free)
    case StopNext(dead, swept) =>
      if dead == {} then s' == Goto(s, t, Stopped(swept))
      else exists a :: a in dead && StopsFlag(s, t, a, dead, swept, s')
    case StopJoin(a, dead, swept) => // returns once the actor's thread has
      a < |s.actors| && s.actors[a].pc == Exited && s' == Goto(s, t, StopDelete(a, dead, swept))
    case StopDelete(a, dead, swept) => s' == Goto(s, t, StopNext(dead, swept)).(deleted := s.deleted + {a})
    case Stopped(_) => s' == Goto(s, t, Idle)
  }

  predicate Begins(pc: Pc, t: nat, actors: nat) {
    match pc
    case SpawnLock | StopLock => true
    case ExecLock(_, task) => task.sender == t && !task.direct
    case DirectCheck(a, task) => task.sender == t && task.direct && a < actors
    case _ => false
  }

  // a->stop(): `_isRun.exchange(false)`, and no join when the flag was false already.
  predicate StopsFlag(s: State, t: nat, a: nat, dead: set<nat>, swept: set<nat>, s': State)
    requires t < |s.threads|
  {
    && a < |s.actors|
    && var next := if s.actors[a].running then StopJoin(a, dead - {a}, swept) else StopDelete(a, dead - {a}, swept);
       s' == Goto(s, t, next).(actors := s.actors[a := s.actors[a].(running := false)])
  }

  // ---- Steps of actor threads ----

  predicate Dequeues(pc: ActorPc) {
    pc.Serve? || pc.Drain?
  }

  predicate Takes(act: Actor, u: nat, act': Actor) {
    && Dequeues(act.pc) && u < |act.box| && act.box[u] != []
    && act' == act.(box := act.box[u := act.box[u][1..]],
                    pc := if act.pc.Serve? then Run(act.box[u][0]) else DrainRun(act.box[u][0]))
  }

  predicate FindsEmpty(act: Actor, u: nat, act': Actor) {
    && Dequeues(act.pc) && u < |act.box| && u !in act.pc.seen && act.box[u] == []
    && act' == act.(pc := act.pc.(seen := act.pc.seen + {u}))
  }

  predicate AllSeen(act: Actor) {
    Dequeues(act.pc) && forall u | 0 <= u < |act.box| :: u in act.pc.seen
  }

  // try_dequeue takes a task from some FIFO, or goes on to the next; `failed` is where its failure leads.
  ghost predicate TryDequeue(act: Actor, failed: ActorPc, act': Actor) {
    if AllSeen(act) then act' == act.(pc := failed)
    else exists u: nat :: FindsEmpty(act, u, act') || Takes(act, u, act')
  }

  ghost predicate ActorMoves(act: Actor, act': Actor) {
    match act.pc
    case Test => act' == act.(pc := if act.running then Serve({}) else Drain({}))
    case Serve(_) => TryDequeue(act, Test, act')
    case Run(task) => act' == act.(pc := Test, done := act.done + [task])
    case Drain(_) => TryDequeue(act, Exited, act')
    case DrainRun(task) => act' == act.(pc := Drain({}), done := act.done + [task])
    case Exited => false
  }

  ghost predicate ActorStep(s: State, a: nat, s': State) {
    && a < |s.actors| && |s'.actors| == |s.actors|
    && ActorMoves(s.actors[a], s'.actors[a])
    && s' == s.(actors := s.actors[a := s'.actors[a]])
  }

  ghost predicate SomeClient(s: State, s': State) {
    exists t: nat :: ClientStep(s, t, s')
  }

  ghost predicate SomeActor(s: State, s': State) {
    exists a: nat :: ActorStep(s, a, s')
  }

  ghost predicate SomeStep(s: State, s': State) {
    SomeClient(s, s') || SomeActor(s, s')
  }

  predicate Init(s: State) {
    && s.actors == [] && s.registry == {} && s.deleted == {} && s.lock == Free
    && forall t | 0 <= t < |s.threads| :: s.threads[t] == Idle
  }

  ghost predicate StepAt(b: seq<State>, i: nat)
    requires i + 1 < |b|
  {
    SomeStep(b[i], b[i + 1])
  }

  ghost predicate Behavior(b: seq<State>) {
    && |b| > 0
    && Init(b[0])
    && forall i | 0 <= i < |b| - 1 :: StepAt(b, i)
  }

  // ---- The invariant ----

  function Of(tasks: seq<Task>, u: nat): seq<Task> {
    if tasks == [] then []
    else
      var last := tasks[|tasks| - 1];
      Of(tasks[..|tasks| - 1], u) + (if last.sender == u then [last] else [])
  }

  function InFlight(pc: ActorPc): seq<Task> {
    match pc
    case Run(task) => [task]
    case DrainRun(task) => [task]
    case _ => []
  }

  // Everything accepted from sender u was run, is being run or is waiting, in that order.
  predicate Delivers(act: Actor, u: nat)
    requires u < |act.box| == |act.accepted|
  {
    && Of(act.done, u) + Of(InFlight(act.pc), u) + act.box[u] == act.accepted[u]
    && forall i | 0 <= i < |act.box[u]| :: act.box[u][i].sender == u
  }

  predicate AllDirect(tasks: seq<Task>) {
    forall i | 0 <= i < |tasks| :: tasks[i].direct
  }

  // The actor's thread will not look at u's FIFO again, unless it finds a task in another one.
  predicate PassedBy(pc: ActorPc, u: nat) {
    pc.Exited? || (pc.Drain? && u in pc.seen)
  }

  predicate ActorOk(act: Actor, senders: nat) {
    && |act.box| == |act.accepted| == senders
    && (forall u | 0 <= u < senders :: Delivers(act, u))
    && (act.pc.Drain? || act.pc.DrainRun? || act.pc.Exited? ==> !act.running)
    && (forall u | 0 <= u < senders && PassedBy(act.pc, u) :: AllDirect(act.box[u]))
  }

  predicate Critical(pc: Pc) {
    || pc.SpawnStart? || pc.SpawnUnlock?
    || pc.ExecFind? || pc.ExecCheck? || pc.ExecEnqueue? || pc.ExecUnlock?
    || pc.StopSweep? || pc.StopUnlock?
  }

  // Actors a stopAll has taken from the registry and not yet stopped.
  function Dead(pc: Pc): set<nat> {
    match pc
    case StopUnlock(swept) => swept
    case StopNext(dead, _) => dead
    case StopJoin(_, dead, _) => dead
    case StopDelete(_, dead, _) => dead
    case _ => {}
  }

  // Actors a stopAll has finished stopping.
  predicate Buried(pc: Pc, a: nat) {
    match pc
    case StopNext(dead, swept) => a in swept && a !in dead
    case StopJoin(x, dead, swept) => a in swept && a !in dead && a != x
    case StopDelete(_, dead, swept) => a in swept && a !in dead
    case Stopped(swept) => a in swept
    case _ => false
  }

  ghost predicate ClientOk(s: State, t: nat, pc: Pc) {
    && (Critical(pc) <==> s.lock == HeldBy(t))
    && (pc.ExecLock? || pc.ExecFind? || pc.ExecCheck? || pc.ExecEnqueue? ==> pc.task.sender == t && !pc.task.direct)
    && (pc.ExecCheck? || pc.ExecEnqueue? ==> pc.a in s.registry)
    && (pc.StopJoin? ==> pc.a < |s.actors| && !s.actors[pc.a].running)
    && (pc.StopJoin? || pc.StopDelete? ==> pc.a < |s.actors| && pc.a !in s.registry)
    && (pc.StopDelete? ==> s.actors[pc.a].pc == Exited)
    && (forall a | a in Dead(pc) :: a < |s.actors| && a !in s.registry && s.actors[a].running)
    && (forall a: nat | Buried(pc, a) :: a < |s.actors| && a !in s.registry && s.actors[a].pc == Exited)
    && (pc.DirectCheck? || pc.DirectEnqueue? ==> pc.task.sender == t && pc.task.direct && pc.a < |s.actors|)
  }

  ghost predicate Inv(s: State) {
    && (forall a | 0 <= a < |s.actors| :: ActorOk(s.actors[a], |s.threads|))
    && (forall a | a in s.registry :: a < |s.actors| && s.actors[a].running)
    && (forall a | a in s.deleted :: a < |s.actors| && a !in s.registry && s.actors[a].pc == Exited)
    && (s.lock.HeldBy? ==> s.lock.t < |s.threads|)
    && (forall t | 0 <= t < |s.threads| :: ClientOk(s, t, s.threads[t]))
    && (forall t, t' | 0 <= t < |s.threads| && 0 <= t' < |s.threads| && t != t' ::
          Dead(s.threads[t]) !! Dead(s.threads[t']))
  }

  lemma FinishKeeps(act: Actor, act': Actor, task: Task, u: nat)
    requires u < |act.box| == |act.accepted| && Delivers(act, u) && InFlight(act.pc) == [task]
    requires act' == act.(pc := act'.pc, done := act.done + [task]) && InFlight(act'.pc) == []
    ensures Delivers(act', u)
  {
    assert act'.done[..|act'.done| - 1] == act.done;
    assert [task][..0] == [];
  }

  lemma TakeKeeps(act: Actor, act': Actor, v: nat, u: nat)
    requires u < |act.box| == |act.accepted| && v < |act.box| && Delivers(act, u) && Delivers(act, v)
    requires Takes(act, v, act')
    ensures Delivers(act', u)
  {
    assert act.box[v] == [act.box[v][0]] + act.box[v][1..];
    assert [act.box[v][0]][..0] == [];
  }

  lemma ActorMoveKeeps(act: Actor, act': Actor, senders: nat)
    requires ActorOk(act, senders) && ActorMoves(act, act')
    ensures ActorOk(act', senders) && act'.running == act.running && !act.pc.Exited?
  {
    forall u | 0 <= u < senders ensures Delivers(act', u) {
      assert Delivers(act, u);
      if act.pc.Run? || act.pc.DrainRun? {
        FinishKeeps(act, act', act.pc.task, u);
      } else if exists v: nat :: Takes(act, v, act') {
        var v: nat :| Takes(act, v, act');
        assert Delivers(act, v);
        TakeKeeps(act, act', v, u);
      }
    }
  }

  lemma ActorStepKeeps(s: State, a: nat, s': State)
    requires Inv(s) && ActorStep(s, a, s')
    ensures Inv(s')
  {
    ActorMoveKeeps(s.actors[a], s'.actors[a], |s.threads|);
    forall t | 0 <= t < |s.threads| ensures ClientOk(s', t, s'.threads[t]) {
      assert ClientOk(s, t, s.threads[t]);
    }
  }

  lemma EnqueueKeeps(act: Actor, task: Task, senders: nat)
    requires ActorOk(act, senders) && (act.running || task.direct) && task.sender < senders
    ensures ActorOk(Enqueue(act, task), senders)
  {
    var act' := Enqueue(act, task);
    forall u | 0 <= u < senders ensures Delivers(act', u) {
      assert Delivers(act, u);
      if u == task.sender {
        var before := Of(act.done, u) + Of(InFlight(act.pc), u);
        assert before + (act.box[u] + [task]) == (before + act.box[u]) + [task];
      }
    }
  }

  // Steps of one client that touch no actor and leave the registry alone.
  lemma LocalKeeps(s: State, t: nat, s': State)
    requires Inv(s) && t < |s.threads| == |s'.threads|
    requires s' == s.(lock := s'.lock, threads := s.threads[t := s'.threads[t]])
    requires s'.lock == s.lock || (s.lock == Free && s'.lock == HeldBy(t)) || (s.lock == HeldBy(t) && s'.lock == Free)
    requires ClientOk(s', t, s'.threads[t])
    requires Dead(s'.threads[t]) <= Dead(s.threads[t])
    ensures Inv(s')
  {
    forall t' | 0 <= t' < |s.threads| ensures ClientOk(s', t', s'.threads[t']) {
      assert ClientOk(s, t', s.threads[t']);
    }
  }

  lemma SpawnKeeps(s: State, t: nat, s': State)
    requires Inv(s) && ClientStep(s, t, s') && s.threads[t].SpawnStart?
    ensures Inv(s')
  {
    assert ActorOk(Fresh(|s.threads|), |s.threads|);
    forall t' | 0 <= t' < |s.threads| ensures ClientOk(s', t', s'.threads[t']) {
      assert ClientOk(s, t', s.threads[t']);
    }
  }

  lemma ExecuteKeeps(s: State, t: nat, s': State)
    requires Inv(s) && ClientStep(s, t, s') && (s.threads[t].ExecEnqueue? || s.threads[t].DirectEnqueue?)
    ensures Inv(s')
  {
    assert ClientOk(s, t, s.threads[t]);
    EnqueueKeeps(s.actors[s.threads[t].a], s.threads[t].task, |s.threads|);
    ExecuteKeepsClients(s, t, s');
  }

  lemma ExecuteKeepsClients(s: State, t: nat, s': State)
    requires Inv(s) && ClientStep(s, t, s') && (s.threads[t].ExecEnqueue? || s.threads[t].DirectEnqueue?)
    ensures |s'.threads| == |s.threads| && forall t' | 0 <= t' < |s.threads| :: ClientOk(s', t', s'.threads[t'])
  {
    assert ClientOk(s, t, s.threads[t]);
    forall t' | 0 <= t' < |s.threads| ensures ClientOk(s', t', s'.threads[t']) {
      assert ClientOk(s, t', s.threads[t']);
    }
  }

  lemma SweepKeeps(s: State, t: nat, s': State)
    requires Inv(s) && ClientStep(s, t, s') && s.threads[t].StopSweep?
    ensures Inv(s')
  {
    assert ClientOk(s, t, s.threads[t]);
    forall t' | 0 <= t' < |s.threads|
      ensures ClientOk(s', t', s'.threads[t'])
      ensures t' != t ==> Dead(s'.threads[t']) !! s.registry
    {
      assert ClientOk(s, t', s.threads[t']);
    }
  }

  lemma FlagKeeps(s: State, t: nat, a: nat, dead: set<nat>, swept: set<nat>, s': State)
    requires Inv(s) && t < |s.threads| && s.threads[t] == StopNext(dead, swept)
    requires a in dead && StopsFlag(s, t, a, dead, swept, s')
    ensures Inv(s')
  {
    assert ClientOk(s, t, s.threads[t]) && a in Dead(s.threads[t]);
    assert forall x: nat :: Buried(s'.threads[t], x) ==> Buried(s.threads[t], x);
    forall u | 0 <= u < |s.threads| ensures Delivers(s'.actors[a], u) {
      assert Delivers(s.actors[a], u);
    }
    forall t' | 0 <= t' < |s.threads| ensures ClientOk(s', t', s'.threads[t']) {
      assert ClientOk(s, t', s.threads[t']);
      if t' != t {
        assert a !in Dead(s.threads[t']);
      }
    }
  }

  lemma DeleteKeeps(s: State, t: nat, s': State)
    requires Inv(s) && ClientStep(s, t, s') && s.threads[t].StopDelete?
    ensures Inv(s')
  {
    assert ClientOk(s, t, s.threads[t]);
    assert forall x: nat :: Buried(s'.threads[t], x) ==> Buried(s.threads[t], x);
    forall t' | 0 <= t' < |s.threads| ensures ClientOk(s', t', s'.threads[t']) {
      assert ClientOk(s, t', s.threads[t']);
    }
  }

  lemma OtherClientKeeps(s: State, t: nat, s': State)
    requires Inv(s) && ClientStep(s, t, s') && (s.threads[t].StopNext? ==> s.threads[t].dead == {})
    requires var pc := s.threads[t];
      !pc.SpawnStart? && !pc.ExecEnqueue? && !pc.DirectEnqueue? && !pc.StopSweep? && !pc.StopDelete?
    ensures Inv(s')
  {
    var pc := s.threads[t];
    assert ClientOk(s, t, pc);
    assert forall x: nat :: Buried(s'.threads[t], x) ==> Buried(pc, x) || (pc.StopJoin? && x == pc.a);
    LocalKeeps(s, t, s');
  }

  lemma ClientStepKeeps(s: State, t: nat, s': State)
    requires Inv(s) && ClientStep(s, t, s')
    ensures Inv(s')
  {
    var pc := s.threads[t];
    assert ClientOk(s, t, pc);
    if pc.SpawnStart? {
      SpawnKeeps(s, t, s');
    } else if pc.ExecEnqueue? || pc.DirectEnqueue? {
      ExecuteKeeps(s, t, s');
    } else if pc.StopSweep? {
      SweepKeeps(s, t, s');
    } else if pc.StopDelete? {
      DeleteKeeps(s, t, s');
    } else if pc.StopNext? && pc.dead != {} {
      var a: nat :| a in pc.dead && StopsFlag(s, t, a, pc.dead, pc.swept, s');
      FlagKeeps(s, t, a, pc.dead, pc.swept, s');
    } else {
      OtherClientKeeps(s, t, s');
    }
  }

  lemma StepKeeps(s: State, s': State)
    requires Inv(s) && SomeStep(s, s')
    ensures Inv(s')
  {
    if SomeClient(s, s') {
      var t: nat :| ClientStep(s, t, s');
      ClientStepKeeps(s, t, s');
    } else {
      var a: nat :| ActorStep(s, a, s');
      ActorStepKeeps(s, a, s');
    }
  }

  // ---- Main results ----

  lemma {:induction false} RunSafe(b: seq<State>, i: nat)
    requires Behavior(b) && i < |b|
    ensures Inv(b[i])
  {
    if i > 0 {
      RunSafe(b, i - 1);
      assert StepAt(b, i - 1);
      StepKeeps(b[i - 1], b[i]);
    }
  }

  /** At any time each accepted task is run, running or waiting, in order: nothing is dropped,
      duplicated or overtaken by a later task of the same sender. */
  lemma NothingIsLostOrReordered(b: seq<State>, i: nat, a: nat, u: nat)
    requires Behavior(b) && i < |b| && a < |b[i].actors| && u < |b[i].threads|
    ensures var act := b[i].actors[a];
      && |act.box| == |act.accepted| == |b[i].threads|
      && Of(act.done, u) + Of(InFlight(act.pc), u) + act.box[u] == act.accepted[u]
  {
    RunSafe(b, i);
    assert Delivers(b[i].actors[a], u);
  }

  /** An actor that execute has looked up cannot be deleted under its hands, and is running, so the
      task it enqueues is accepted by a thread that will still drain the mailbox. */
  lemma LookedUpActorIsAlive(b: seq<State>, i: nat, t: nat)
    requires Behavior(b) && i < |b| && t < |b[i].threads|
    requires b[i].threads[t].ExecCheck? || b[i].threads[t].ExecEnqueue?
    ensures var a := b[i].threads[t].a;
      a < |b[i].actors| && a !in b[i].deleted && b[i].actors[a].running && !b[i].actors[a].pc.Exited?
  {
    RunSafe(b, i);
    assert ClientOk(b[i], t, b[i].threads[t]);
  }

  // The tasks that came through the registry.
  function Registered(tasks: seq<Task>): seq<Task> {
    if tasks == [] then []
    else
      var last := tasks[|tasks| - 1];
      Registered(tasks[..|tasks| - 1]) + (if last.direct then [] else [last])
  }

  lemma {:induction false} RegisteredOnly(tasks: seq<Task>, more: seq<Task>)
    requires AllDirect(more)
    ensures Registered(tasks + more) == Registered(tasks)
  {
    if more == [] {
      assert tasks + more == tasks;
    } else {
      var last := |more| - 1;
      assert (tasks + more)[..|tasks + more| - 1] == tasks + more[..last];
      RegisteredOnly(tasks, more[..last]);
    }
  }

  /** When stopAll returns, every actor it took from the registry has run each task that it ever
      accepted through `ActorSystem::execute`, exactly once and in each sender's order, whatever
      direct calls there were besides. */
  lemma RegisteredTasksAreRun(b: seq<State>, i: nat, t: nat, a: nat, u: nat)
    requires Behavior(b) && i < |b| && t < |b[i].threads| && u < |b[i].threads|
    requires b[i].threads[t].Stopped? && a in b[i].threads[t].swept
    ensures a < |b[i].actors| && b[i].actors[a].pc == Exited && u < |b[i].actors[a].accepted|
    ensures Registered(Of(b[i].actors[a].done, u)) == Registered(b[i].actors[a].accepted[u])
  {
    RunSafe(b, i);
    var s := b[i];
    assert ClientOk(s, t, s.threads[t]) && Buried(s.threads[t], a);
    var act := s.actors[a];
    assert Delivers(act, u) && PassedBy(act.pc, u);
    RegisteredOnly(Of(act.done, u), act.box[u]);
    assert Of(act.done, u) + Of(InFlight(act.pc), u) == Of(act.done, u);
  }

  // What an actor accepted from u was run: each task once, in the order it was accepted.
  predicate AllDone(act: Actor, u: nat) {
    u < |act.accepted| && Of(act.done, u) == act.accepted[u]
  }

  // At step j a direct call of u puts its task into a's mailbox.
  ghost predicate EntersDirectly(b: seq<State>, j: nat, a: nat, u: nat) {
    && j + 1 < |b|
    && exists t: nat :: DirectCallOf(b[j], t, a, u) && ClientStep(b[j], t, b[j + 1])
  }

  predicate DirectCallOf(s: State, t: nat, a: nat, u: nat) {
    t < |s.threads| && s.threads[t].DirectEnqueue? && s.threads[t].a == a && s.threads[t].task.sender == u
  }

  // At step k a's thread looks at u's FIFO: it takes a task from it, or passes it by as empty.
  ghost predicate Looks(b: seq<State>, k: nat, a: nat, u: nat) {
    && k + 1 < |b| && a < |b[k].actors| && a < |b[k + 1].actors|
    && var act, act' := b[k].actors[a], b[k + 1].actors[a];
       Takes(act, u, act') || FindsEmpty(act, u, act')
  }

  // Up to moment i: a direct call that came after a's thread had looked at the caller's FIFO for the
  // last time.
  ghost predicate TooLate(b: seq<State>, i: nat, j: nat, a: nat, u: nat) {
    j < i < |b| && EntersDirectly(b, j, a, u) && forall k | j < k < i :: !Looks(b, k, a, u)
  }

  // How one step of a run changes actor a.
  datatype Change = Same | FlagCleared | Entered(t: nat) | Moved

  ghost predicate Changed(b: seq<State>, i: nat, a: nat, c: Change) {
    && i + 1 < |b| && a < |b[i].actors| && a < |b[i + 1].actors|
    && var act, act' := b[i].actors[a], b[i + 1].actors[a];
       match c
       case Same => act' == act
       case FlagCleared => act' == act.(running := false)
       case Entered(t) =>
         && act' == Enqueue(act, TaskOf(b[i], t))
         && Calls(b[i], t, a, act.running) && ClientStep(b[i], t, b[i + 1])
       case Moved => ActorMoves(act, act')
  }

  function TaskOf(s: State, t: nat): Task {
    if t < |s.threads| && (s.threads[t].ExecEnqueue? || s.threads[t].DirectEnqueue?) then s.threads[t].task
    else Task(t, 0, true)
  }

  // Thread t is about to enqueue for actor a; through the registry only while a runs.
  predicate Calls(s: State, t: nat, a: nat, running: bool) {
    && t < |s.threads|
    && (|| (s.threads[t].ExecEnqueue? && s.threads[t].a == a && !s.threads[t].task.direct && running)
        || (s.threads[t].DirectEnqueue? && s.threads[t].a == a && s.threads[t].task.direct))
    && TaskOf(s, t).sender == t
  }

  lemma ActorIsOk(b: seq<State>, i: nat, a: nat)
    requires Behavior(b) && i < |b| && a < |b[i].actors|
    ensures ActorOk(b[i].actors[a], |b[i].threads|)
  {
    RunSafe(b, i);
  }

  lemma ClientStepOnActor(s: State, t: nat, s': State, a: nat)
    requires Inv(s) && ClientStep(s, t, s') && a < |s.actors|
    ensures a < |s'.actors|
    ensures var act, act' := s.actors[a], s'.actors[a];
      || act' == act
      || act' == act.(running := false)
      || (Calls(s, t, a, act.running) && act' == Enqueue(act, TaskOf(s, t)))
  {
    var pc := s.threads[t];
    assert ClientOk(s, t, pc);
    if pc.StopNext? && pc.dead != {} {
      var x: nat :| x in pc.dead && StopsFlag(s, t, x, pc.dead, pc.swept, s');
    }
  }

  lemma StepOnActor(b: seq<State>, i: nat, a: nat) returns (c: Change)
    requires Behavior(b) && i + 1 < |b| && a < |b[i].actors|
    ensures Changed(b, i, a, c)
  {
    assert StepAt(b, i);
    var s, s' := b[i], b[i + 1];
    if SomeClient(s, s') {
      var t: nat :| ClientStep(s, t, s');
      RunSafe(b, i);
      ClientStepOnActor(s, t, s', a);
      var act, act' := s.actors[a], s'.actors[a];
      c := if act' == act then Same else if act' == act.(running := false) then FlagCleared else Entered(t);
    } else {
      var x: nat :| ActorStep(s, x, s');
      c := if x == a then Moved else Same;
    }
  }

  // A step of a's own thread that leaves u's FIFO passed by and not empty left it alone.
  lemma PassedByBefore(act: Actor, act': Actor, u: nat)
    requires ActorMoves(act, act') && u < |act.box| && u < |act'.box| && PassedBy(act'.pc, u) && act'.box[u] != []
    ensures PassedBy(act.pc, u) && act.box[u] == act'.box[u] && !Takes(act, u, act') && !FindsEmpty(act, u, act')
  {
  }

  lemma FreshIsNotPassed(b: seq<State>, i: nat, a: nat, u: nat)
    requires Behavior(b) && i < |b| && a < |b[i].actors| && PassedBy(b[i].actors[a].pc, u)
    ensures i > 0 && a < |b[i - 1].actors|
  {
    if i > 0 {
      assert StepAt(b, i - 1);
      if SomeClient(b[i - 1], b[i]) {
        var t: nat :| ClientStep(b[i - 1], t, b[i]);
      } else {
        var x: nat :| ActorStep(b[i - 1], x, b[i]);
      }
    }
  }

  // Once the thread has passed by a FIFO that is not empty, a direct call came too late.
  lemma {:induction false} LateCallExists(b: seq<State>, i: nat, a: nat, u: nat) returns (j: nat)
    requires Behavior(b) && i < |b| && a < |b[i].actors| && u < |b[i].actors[a].box|
    requires PassedBy(b[i].actors[a].pc, u) && b[i].actors[a].box[u] != []
    ensures TooLate(b, i, j, a, u)
  {
    FreshIsNotPassed(b, i, a, u);
    ActorIsOk(b, i - 1, a);
    var c := StepOnActor(b, i - 1, a);
    if c.Moved? {
      PassedByBefore(b[i - 1].actors[a], b[i].actors[a], u);
    } else if c.Entered? && c.t == u {
      j := i - 1;
      assert DirectCallOf(b[j], c.t, a, u);
      return;
    }
    j := LateCallExists(b, i - 1, a, u);
    assert !Looks(b, i - 1, a, u);
  }

  lemma DirectCallEnters(b: seq<State>, j: nat, a: nat, u: nat)
    requires Behavior(b) && EntersDirectly(b, j, a, u)
    ensures a < |b[j].actors| && a < |b[j + 1].actors| && u < |b[j + 1].actors[a].box|
    ensures b[j + 1].actors[a].box[u] != []
  {
    RunSafe(b, j);
    var t: nat :| DirectCallOf(b[j], t, a, u) && ClientStep(b[j], t, b[j + 1]);
    assert ClientOk(b[j], t, b[j].threads[t]) && ActorOk(b[j].actors[a], |b[j].threads|);
  }

  // A task that came too late stays where it is.
  lemma {:induction false} LateTaskStays(b: seq<State>, i: nat, j: nat, a: nat, u: nat)
    requires Behavior(b) && TooLate(b, i, j, a, u)
    ensures a < |b[i].actors| && u < |b[i].actors[a].box| && b[i].actors[a].box[u] != []
    decreases i
  {
    if j == i - 1 {
      DirectCallEnters(b, j, a, u);
    } else {
      LateTaskStays(b, i - 1, j, a, u);
      assert !Looks(b, i - 1, a, u);
      var c := StepOnActor(b, i - 1, a);
    }
  }

  /** `Actor::execute`, called past the registry, is where tasks can be lost, and only there: when an
      actor's thread has left, some task it accepted from u was not run if and only if a direct call
      of u put its task into the mailbox after the thread had last looked at u's FIFO. */
  lemma AllDoneIffNoneTooLate(b: seq<State>, i: nat, a: nat, u: nat)
    requires Behavior(b) && i < |b| && a < |b[i].actors| && u < |b[i].threads|
    requires b[i].actors[a].pc == Exited
    ensures AllDone(b[i].actors[a], u) <==> forall j: nat :: !TooLate(b, i, j, a, u)
  {
    RunSafe(b, i);
    var act := b[i].actors[a];
    assert Delivers(act, u);
    assert Of(act.done, u) + Of(InFlight(act.pc), u) == Of(act.done, u);
    if act.box[u] != [] {
      var j := LateCallExists(b, i, a, u);
      assert |act.accepted[u]| > |Of(act.done, u)|;
    } else {
      forall j: nat ensures !TooLate(b, i, j, a, u) {
        if TooLate(b, i, j, a, u) {
          LateTaskStays(b, i, j, a, u);
        }
      }
    }
  }

  // Between a moment at which the actor runs and its thread's last pass, its thread looks at u's FIFO.
  lemma {:induction false} LooksBeforeLeaving(b: seq<State>, m: nat, i: nat, a: nat, u: nat) returns (k: nat)
    requires Behavior(b) && m <= i < |b| && a < |b[m].actors| && b[m].actors[a].running
    requires a < |b[i].actors| && u < |b[i].actors[a].box| && PassedBy(b[i].actors[a].pc, u)
    ensures m <= k < i && Looks(b, k, a, u)
    decreases i
  {
    ActorIsOk(b, m, a);
    ActorsStay(b, m, i - 1, a);
    ActorIsOk(b, i - 1, a);
    var c := StepOnActor(b, i - 1, a);
    if PassedBy(b[i - 1].actors[a].pc, u) {
      k := LooksBeforeLeaving(b, m, i - 1, a, u);
    } else {
      k := i - 1;
    }
  }

  // Actors are not forgotten and do not start again.
  lemma {:induction false} ActorsStay(b: seq<State>, m: nat, i: nat, a: nat)
    requires Behavior(b) && m <= i < |b| && a < |b[m].actors|
    ensures a < |b[i].actors|
    ensures b[i].actors[a].running ==> b[m].actors[a].running
    decreases i
  {
    if m < i {
      ActorsStay(b, m, i - 1, a);
      var c := StepOnActor(b, i - 1, a);
    }
  }

  // Inside stopAll, before it returns.
  predicate Stopping(pc: Pc) {
    pc.StopLock? || pc.StopSweep? || pc.StopUnlock? || pc.StopNext? || pc.StopJoin? || pc.StopDelete?
  }

  predicate HasSwept(pc: Pc, a: nat) {
    (pc.StopUnlock? || pc.StopNext? || pc.StopJoin? || pc.StopDelete? || pc.Stopped?) && a in pc.swept
  }

  // One call of stopAll by thread t, from its start to its return.
  predicate StopAllCall(b: seq<State>, m: nat, i: nat, t: nat) {
    && m <= i < |b| && t < |b[m].threads| && b[m].threads[t] == StopLock
    && forall k | m <= k < i :: t < |b[k].threads| && Stopping(b[k].threads[t])
  }

  lemma RegisteredRuns(b: seq<State>, i: nat, a: nat)
    requires Behavior(b) && i < |b| && a in b[i].registry
    ensures a < |b[i].actors| && b[i].actors[a].running
  {
    RunSafe(b, i);
  }

  lemma {:induction false} SweptWasRunning(b: seq<State>, m: nat, i: nat, t: nat, a: nat)
    requires Behavior(b) && StopAllCall(b, m, i, t) && a < |b[m].actors|
    requires t < |b[i].threads| && HasSwept(b[i].threads[t], a)
    ensures b[m].actors[a].running
    decreases i
  {
    assert StepAt(b, i - 1);
    if HasSwept(b[i - 1].threads[t], a) {
      SweptWasRunning(b, m, i - 1, t, a);
    } else {
      SweepTakes(b[i - 1], b[i], t, a);
      RegisteredRuns(b, i - 1, a);
      ActorsStay(b, m, i - 1, a);
    }
  }

  // What stopAll has swept was in the registry when it swept.
  lemma SweepTakes(s: State, s': State, t: nat, a: nat)
    requires SomeStep(s, s') && t < |s.threads| && t < |s'.threads| && Stopping(s.threads[t])
    requires HasSwept(s'.threads[t], a) && !HasSwept(s.threads[t], a)
    ensures a in s.registry
  {
    if SomeClient(s, s') {
      var t': nat :| ClientStep(s, t', s');
    }
  }

  /** What a caller has to see to: if every direct call of u on actor a has put its task in before
      stopAll is called, then at its return a has run everything it ever accepted from u, exactly
      once and in order. In particular this is so without direct calls. */
  lemma StopAllLosesNothing(b: seq<State>, m: nat, i: nat, t: nat, a: nat, u: nat)
    requires Behavior(b) && StopAllCall(b, m, i, t) && u < |b[i].threads|
    requires t < |b[i].threads| && b[i].threads[t].Stopped? && a in b[i].threads[t].swept
    requires forall j: nat | j < i && EntersDirectly(b, j, a, u) :: j < m
    ensures a < |b[i].actors| && b[i].actors[a].pc == Exited && AllDone(b[i].actors[a], u)
  {
    RegisteredTasksAreRun(b, i, t, a, u);
    RunSafe(b, i);
    forall j: nat ensures !TooLate(b, i, j, a, u) {
      if TooLate(b, i, j, a, u) {
        RunSafe(b, j);
        var d: nat :| DirectCallOf(b[j], d, a, u) && ClientStep(b[j], d, b[j + 1]);
        ActorsStay(b, j, m, a);
        SweptWasRunning(b, m, i, t, a);
        var k := LooksBeforeLeaving(b, m, i, a, u);
      }
    }
    AllDoneIffNoneTooLate(b, i, a, u);
  }

  /** After an actor's thread has exited nothing more is run and nothing more is accepted through the
      registry: the account of RegisteredTasksAreRun is final. */
  lemma {:induction false} ExitedActorsAreFinal(b: seq<State>, i: nat, j: nat, a: nat, u: nat)
    requires Behavior(b) && i <= j < |b| && a < |b[i].actors| && u < |b[i].threads|
    requires b[i].actors[a].pc == Exited
    ensures a < |b[j].actors| && b[j].actors[a].pc == Exited && b[j].actors[a].done == b[i].actors[a].done
    ensures u < |b[i].actors[a].accepted| == |b[j].actors[a].accepted|
    ensures Registered(b[j].actors[a].accepted[u]) == Registered(b[i].actors[a].accepted[u])
    decreases j
  {
    ActorIsOk(b, i, a);
    if i < j {
      ExitedActorsAreFinal(b, i, j - 1, a, u);
      ActorIsOk(b, j - 1, a);
      var c := StepOnActor(b, j - 1, a);
      if c.Entered? && c.t == u {
        RegisteredOnly(b[j - 1].actors[a].accepted[u], [TaskOf(b[j - 1], u)]);
      }
    }
  }

  /** Such a run exists. Thread 1 calls `Actor::execute` on a pointer from spawn, sees the flag before
      stopAll clears it and enqueues after the actor's thread has left: an accepted task is never run. */
  lemma DirectExecuteCanLoseATask() returns (b: seq<State>)
    ensures Behavior(b)
    ensures var s := b[|b| - 1];
      && |s.threads| == 2 && s.threads[0].Stopped? && 0 in s.threads[0].swept
      && |s.actors| == 1 && s.actors[0].pc == Exited && !AllDone(s.actors[0], 1)
  {
    var first := SpawnedAndSeen();
    var second := StoppedTooEarly();
    b := first + second;
    forall i | 0 <= i < |b| - 1 ensures StepAt(b, i) {
      if i + 1 < |first| {
        assert StepAt(first, i);
      } else if i >= |first| {
        assert StepAt(second, i - |first|) && b[i + 1] == second[i - |first| + 1];
      } else if i + 1 == |first| {
        assert Begins(StopLock, 0, 1) && ClientStep(b[i], 0, b[i + 1]);
      }
    }
  }

  const LATE := Task(1, 7, true)

  // Thread 0 has spawned actor 0; thread 1 has found it running.
  function Seen(): State {
    State([Fresh(2)], {0}, {}, Free, [Idle, DirectEnqueue(0, LATE)])
  }

  lemma SpawnedAndSeen() returns (b: seq<State>)
    ensures Behavior(b) && b[|b| - 1] == Seen()
  {
    var first := Spawned();
    var s4 := first[|first| - 1];
    var s5 := s4.(threads := [Idle, DirectCheck(0, LATE)]);
    assert Begins(DirectCheck(0, LATE), 1, 1) && ClientStep(s4, 1, s5) && ClientStep(s5, 1, Seen());
    b := first + [s5, Seen()];
    forall i | 0 <= i < |b| - 1 ensures StepAt(b, i) {
      if i + 1 < |first| {
        assert StepAt(first, i);
      }
    }
  }

  lemma Spawned() returns (b: seq<State>)
    ensures Behavior(b) && b[|b| - 1] == State([Fresh(2)], {0}, {}, Free, [Idle, Idle])
  {
    var none: seq<Actor> := [];
    var s0 := State(none, {}, {}, Free, [Idle, Idle]);
    var s1 := s0.(threads := [SpawnLock, Idle]);
    var s2 := s1.(threads := [SpawnStart, Idle], lock := HeldBy(0));
    var s3 := s2.(threads := [SpawnUnlock, Idle], actors := [Fresh(2)], registry := {0});
    var s4 := s3.(threads := [Idle, Idle], lock := Free);
    assert Begins(SpawnLock, 0, 0) && ClientStep(s0, 0, s1) && ClientStep(s1, 0, s2);
    assert ClientStep(s2, 0, s3) && ClientStep(s3, 0, s4);
    b := [s0, s1, s2, s3, s4];
  }

  // stopAll clears the flag and the actor's thread leaves; only then does thread 1 enqueue.
  lemma StoppedTooEarly() returns (b: seq<State>)
    ensures |b| > 0 && b[0] == Seen().(threads := [StopLock, DirectEnqueue(0, LATE)])
    ensures forall i | 0 <= i < |b| - 1 :: StepAt(b, i)
    ensures var s := b[|b| - 1];
      s.threads == [Stopped({0}), Idle] && |s.actors| == 1 && s.actors[0].pc == Exited && !AllDone(s.actors[0], 1)
  {
    var left := Fresh(2).(running := false, pc := Exited);
    var first := ActorLeaves(left);
    var s0 := first[|first| - 1];
    var s1 := s0.(threads := [StopJoin(0, {}, {0}), Answer(true)], actors := [Enqueue(left, LATE)]);
    var s2 := s1.(threads := [StopJoin(0, {}, {0}), Idle]);
    var s3 := s2.(threads := [StopDelete(0, {}, {0}), Idle]);
    var s4 := s3.(threads := [StopNext({}, {0}), Idle], deleted := {0});
    var s5 := s4.(threads := [Stopped({0}), Idle]);
    assert ClientStep(s0, 1, s1) && ClientStep(s1, 1, s2) && ClientStep(s2, 0, s3);
    assert ClientStep(s3, 0, s4) && ClientStep(s4, 0, s5);
    assert |s1.actors[0].accepted[1]| == 1;
    b := first + [s1, s2, s3, s4, s5];
    forall i | 0 <= i < |b| - 1 ensures StepAt(b, i) {
      if i < |first| - 1 {
        assert StepAt(first, i) && b[i + 1] == first[i + 1];
      }
    }
  }

  // stopAll sweeps the registry and clears the flag.
  lemma FlagIsCleared(stopped: Actor) returns (b: seq<State>)
    requires stopped == Fresh(2).(running := false)
    ensures |b| > 0 && b[0] == Seen().(threads := [StopLock, DirectEnqueue(0, LATE)])
    ensures forall i | 0 <= i < |b| - 1 :: StepAt(b, i)
    ensures b[|b| - 1] == Joining(stopped)
  {
    var s0 := Seen().(threads := [StopLock, DirectEnqueue(0, LATE)]);
    var s1 := s0.(threads := [StopSweep, DirectEnqueue(0, LATE)], lock := HeldBy(0));
    var s2 := s1.(threads := [StopUnlock({0}), DirectEnqueue(0, LATE)], registry := {});
    var s3 := s2.(threads := [StopNext({0}, {0}), DirectEnqueue(0, LATE)], lock := Free);
    var s4 := Joining(stopped);
    assert ClientStep(s0, 0, s1) && ClientStep(s1, 0, s2) && ClientStep(s2, 0, s3);
    assert {0} - {0} == {} && StopsFlag(s3, 0, 0, {0}, {0}, s4) && ClientStep(s3, 0, s4);
    b := [s0, s1, s2, s3, s4];
  }

  function Joining(act: Actor): State {
    State([act], {}, {}, Free, [StopJoin(0, {}, {0}), DirectEnqueue(0, LATE)])
  }

  // The actor's thread finds both FIFOs empty and leaves.
  lemma ThreadLeaves(stopped: Actor) returns (b: seq<State>)
    requires stopped == Fresh(2).(running := false)
    ensures |b| > 0 && b[0] == Joining(stopped)
    ensures forall i | 0 <= i < |b| - 1 :: StepAt(b, i)
    ensures b[|b| - 1] == Joining(stopped.(pc := Exited))
  {
    var none: set<nat> := {};
    var a1, a2, a3 := stopped.(pc := Drain(none)), stopped.(pc := Drain({0})), stopped.(pc := Drain({0, 1}));
    assert none + {0} == {0} && FindsEmpty(a1, 0, a2);
    assert {0} + {1} == {0, 1} && FindsEmpty(a2, 1, a3);
    b := [Joining(stopped), Joining(a1), Joining(a2), Joining(a3), Joining(stopped.(pc := Exited))];
    assert ActorMoves(stopped, a1) && ActorMoves(a1, a2) && ActorMoves(a2, a3) &&
           ActorMoves(a3, stopped.(pc := Exited));
    forall i | 0 <= i < |b| - 1 ensures StepAt(b, i) {
      assert ActorStep(b[i], 0, b[i + 1]);
    }
  }

  lemma ActorLeaves(left: Actor) returns (b: seq<State>)
    requires left == Fresh(2).(running := false, pc := Exited)
    ensures |b| > 0 && b[0] == Seen().(threads := [StopLock, DirectEnqueue(0, LATE)])
    ensures forall i | 0 <= i < |b| - 1 :: StepAt(b, i)
    ensures b[|b| - 1] == Joining(left)
  {
    var first := FlagIsCleared(Fresh(2).(running := false));
    var second := ThreadLeaves(Fresh(2).(running := false));
    b := first + second[1..];
    forall i | 0 <= i < |b| - 1 ensures StepAt(b, i) {
      if i + 1 < |first| {
        assert StepAt(first, i);
      } else {
        assert StepAt(second, i - |first| + 1) && b[i + 1] == second[i - |first| + 2];
      }
    }
  }
}
