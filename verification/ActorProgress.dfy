/** No actor gets stuck: from every state that can be reached, calls can go through. A waiting task can be
    served, an actor that was told to stop can leave after it has emptied its mailbox, and stopAll can
    return. Each is shown by continuing a behaviour with the steps of the threads concerned alone.
 */
module ActorProgress {
  import opened Actors

  ghost function Last(b: seq<State>): State
    requires |b| > 0
  {
    b[|b| - 1]
  }

  // b' is b with more steps.
  ghost predicate Continues(b: seq<State>, b': seq<State>) {
    Behavior(b') && b <= b'
  }

  lemma OneMore(b: seq<State>, s: State)
    requires Behavior(b) && SomeStep(Last(b), s)
    ensures Continues(b, b + [s]) && Last(b + [s]) == s
  {
    var b' := b + [s];
    forall i | 0 <= i < |b'| - 1 ensures StepAt(b', i) {
      assert i < |b| - 1 ==> StepAt(b, i);
    }
  }

  // ---- Actors ----

  function WithActor(s: State, a: nat, act: Actor): State
    requires a < |s.actors|
  {
    s.(actors := s.actors[a := act])
  }

  lemma ActorGoes(b: seq<State>, a: nat, act: Actor) returns (b': seq<State>)
    requires Behavior(b) && a < |Last(b).actors| && ActorMoves(Last(b).actors[a], act)
    ensures Continues(b, b') && Last(b') == WithActor(Last(b), a, act)
  {
    var s' := WithActor(Last(b), a, act);
    assert ActorStep(Last(b), a, s');
    OneMore(b, s');
    b' := b + [s'];
  }

  /** A task at the front of a sender's FIFO can be run next. */
  lemma TaskIsServed(b: seq<State>, a: nat, u: nat) returns (b': seq<State>)
    requires Behavior(b) && a < |Last(b).actors| && Last(b).actors[a].running && Last(b).actors[a].pc == Test
    requires u < |Last(b).actors[a].box| && Last(b).actors[a].box[u] != []
    ensures var act := Last(b).actors[a];
      && Continues(b, b')
      && Last(b') == WithActor(Last(b), a,
           act.(box := act.box[u := act.box[u][1..]], done := act.done + [act.box[u][0]]))
  {
    var act := Last(b).actors[a];
    var none: set<nat> := {};
    var looking := act.(pc := Serve(none));
    var b1 := ActorGoes(b, a, looking);
    var taken := act.(box := act.box[u := act.box[u][1..]], pc := Run(act.box[u][0]));
    assert Takes(looking, u, taken) && u !in looking.pc.seen;
    var b2 := ActorGoes(b1, a, taken);
    b' := ActorGoes(b2, a, taken.(pc := Test, done := act.done + [act.box[u][0]]));
  }

  // ---- An actor that was told to stop leaves ----

  function Waiting(box: seq<seq<Task>>): nat {
    if box == [] then 0 else Waiting(box[..|box| - 1]) + |box[|box| - 1]|
  }

  lemma {:induction false} WaitingShrinks(box: seq<seq<Task>>, u: nat)
    requires u < |box| && box[u] != []
    ensures Waiting(box[u := box[u][1..]]) < Waiting(box)
  {
    var last := |box| - 1;
    if u == last {
      assert box[u := box[u][1..]][..last] == box[..last];
    } else {
      assert box[u := box[u][1..]][..last] == box[..last][u := box[u][1..]];
      WaitingShrinks(box[..last], u);
    }
  }

  // How far a stopped actor's thread is from leaving, apart from the tasks that wait.
  function Stage(pc: ActorPc): nat {
    match pc
    case Run(_) => 5
    case Serve(_) => 4
    case Test => 3
    case DrainRun(_) => 2
    case Drain(_) => 1
    case Exited => 0
  }

  function Unseen(act: Actor): set<nat> {
    if Dequeues(act.pc) then set u: nat | u < |act.box| && u !in act.pc.seen else {}
  }

  // The next move of an actor that was told to stop.
  lemma StoppedMoves(act: Actor) returns (act': Actor)
    requires !act.running && !act.pc.Exited?
    ensures ActorMoves(act, act') && act' == act.(pc := act'.pc, box := act'.box, done := act'.done)
    ensures |act'.box| == |act.box|
    ensures Waiting(act'.box) < Waiting(act.box) || (act'.box == act.box && Stage(act'.pc) < Stage(act.pc)) ||
            (act'.box == act.box && Stage(act'.pc) == Stage(act.pc) && |Unseen(act')| < |Unseen(act)|)
  {
    match act.pc
    case Test => act' := act.(pc := Drain({}));
    case Run(task) => act' := act.(pc := Test, done := act.done + [task]);
    case DrainRun(task) => act' := act.(pc := Drain({}), done := act.done + [task]);
    case _ =>
      if AllSeen(act) {
        act' := act.(pc := if act.pc.Serve? then Test else Exited);
      } else {
        act' := StoppedLooks(act);
      }
  }

  lemma StoppedLooks(act: Actor) returns (act': Actor)
    requires Dequeues(act.pc) && !AllSeen(act)
    ensures ActorMoves(act, act') && act' == act.(pc := act'.pc, box := act'.box)
    ensures |act'.box| == |act.box|
    ensures Waiting(act'.box) < Waiting(act.box) ||
            (act'.box == act.box && Stage(act'.pc) == Stage(act.pc) && |Unseen(act')| < |Unseen(act)|)
  {
    var u :| 0 <= u < |act.box| && u !in act.pc.seen;
    if act.box[u] == [] {
      act' := act.(pc := act.pc.(seen := act.pc.seen + {u}));
      assert FindsEmpty(act, u, act');
      assert Unseen(act') == Unseen(act) - {u} && u in Unseen(act);
    } else {
      var task := act.box[u][0];
      act' := act.(box := act.box[u := act.box[u][1..]], pc := if act.pc.Serve? then Run(task) else DrainRun(task));
      assert Takes(act, u, act');
      WaitingShrinks(act.box, u);
    }
  }

  /** An actor whose flag is cleared can leave by its own steps alone, and does so with an empty mailbox. */
  lemma {:induction false} ActorLeaves(b: seq<State>, a: nat) returns (b': seq<State>, act: Actor)
    requires Behavior(b) && a < |Last(b).actors| && !Last(b).actors[a].running
    ensures Continues(b, b') && Last(b') == WithActor(Last(b), a, act)
    ensures act.pc == Exited && act.running == false && act.accepted == Last(b).actors[a].accepted
    decreases Waiting(Last(b).actors[a].box), Stage(Last(b).actors[a].pc), |Unseen(Last(b).actors[a])|
  {
    act := Last(b).actors[a];
    if act.pc.Exited? {
      b' := b;
      assert WithActor(Last(b), a, act) == Last(b);
    } else {
      var next := StoppedMoves(act);
      var b1 := ActorGoes(b, a, next);
      b', act := ActorLeaves(b1, a);
      assert WithActor(WithActor(Last(b), a, next), a, act) == WithActor(Last(b), a, act);
    }
  }

  // ---- Clients ----

  lemma ClientGoes(b: seq<State>, t: nat, s: State) returns (b': seq<State>)
    requires Behavior(b) && ClientStep(Last(b), t, s)
    ensures Continues(b, b') && Last(b') == s
  {
    assert SomeClient(Last(b), s);
    OneMore(b, s);
    b' := b + [s];
  }

  /** From any state in which the registry is not locked, `ActorSystem::execute` can put its task into the
      mailbox of a registered actor. */
  lemma ExecuteGoesThrough(b: seq<State>, t: nat, a: nat, task: Task) returns (b': seq<State>)
    requires Behavior(b) && Last(b).lock == Free && t < |Last(b).threads| && Last(b).threads[t] == Idle
    requires a in Last(b).registry && task.sender == t && !task.direct
    ensures Continues(b, b') && a < |Last(b).actors|
    ensures Last(b') == WithActor(Last(b), a, Enqueue(Last(b).actors[a], task))
  {
    RunSafe(b, |b| - 1);
    var s := Last(b);
    var s1 := Goto(s, t, ExecLock(a, task));
    assert Begins(ExecLock(a, task), t, |s.actors|);
    var b1 := ClientGoes(b, t, s1);
    var s2 := Goto(s1, t, ExecFind(a, task)).(lock := HeldBy(t));
    var b2 := ClientGoes(b1, t, s2);
    var s3 := Goto(s2, t, ExecCheck(a, task));
    var b3 := ClientGoes(b2, t, s3);
    var s4 := Goto(s3, t, ExecEnqueue(a, task));
    var b4 := ClientGoes(b3, t, s4);
    var s5 := Goto(s4, t, ExecUnlock(true)).(actors := s.actors[a := Enqueue(s.actors[a], task)]);
    var b5 := ClientGoes(b4, t, s5);
    var s6 := Goto(s5, t, Idle).(lock := Free);
    b' := ClientGoes(b5, t, s6);
    assert s6.threads == s.threads;
  }

  // stopAll up to the end of its critical section.
  lemma StopAllSweeps(b: seq<State>, t: nat) returns (b': seq<State>)
    requires Behavior(b) && Last(b).lock == Free && t < |Last(b).threads| && Last(b).threads[t] == Idle
    ensures Continues(b, b')
    ensures Last(b') == Goto(Last(b), t, StopNext(Last(b).registry, Last(b).registry)).(registry := {})
  {
    var s := Last(b);
    var s1 := Goto(s, t, StopLock);
    assert Begins(StopLock, t, |s.actors|);
    var b1 := ClientGoes(b, t, s1);
    var s2 := Goto(s1, t, StopSweep).(lock := HeldBy(t));
    var b2 := ClientGoes(b1, t, s2);
    var s3 := Goto(s2, t, StopUnlock(s.registry)).(registry := {});
    var b3 := ClientGoes(b2, t, s3);
    var s4 := Goto(s3, t, StopNext(s.registry, s.registry)).(lock := Free);
    b' := ClientGoes(b3, t, s4);
    assert s4 == Goto(s, t, StopNext(s.registry, s.registry)).(registry := {});
  }

  // One actor is told to stop, leaves and is deleted.
  lemma StopsOne(b: seq<State>, t: nat, a: nat, dead: set<nat>, swept: set<nat>) returns (b': seq<State>)
    requires Behavior(b) && t < |Last(b).threads| && Last(b).threads[t] == StopNext(dead, swept) && a in dead
    ensures Continues(b, b') && t < |Last(b').threads| && Last(b').threads[t] == StopNext(dead - {a}, swept)
    ensures Undisturbed(Last(b), Last(b'), t)
  {
    var b1 := FlagGoes(b, t, a, dead, swept);
    var b2, act := ActorLeaves(b1, a);
    b' := JoinGoes(b2, t, a, dead - {a}, swept);
  }

  lemma FlagGoes(b: seq<State>, t: nat, a: nat, dead: set<nat>, swept: set<nat>) returns (b': seq<State>)
    requires Behavior(b) && t < |Last(b).threads| && Last(b).threads[t] == StopNext(dead, swept) && a in dead
    ensures Continues(b, b') && a < |Last(b).actors|
    ensures Last(b') == WithActor(Goto(Last(b), t, StopJoin(a, dead - {a}, swept)), a,
                                  Last(b).actors[a].(running := false))
  {
    RunSafe(b, |b| - 1);
    var s := Last(b);
    assert ClientOk(s, t, s.threads[t]) && a in Dead(s.threads[t]);
    var s1 := WithActor(Goto(s, t, StopJoin(a, dead - {a}, swept)), a, s.actors[a].(running := false));
    assert StopsFlag(s, t, a, dead, swept, s1);
    b' := ClientGoes(b, t, s1);
  }

  lemma JoinGoes(b: seq<State>, t: nat, a: nat, dead: set<nat>, swept: set<nat>) returns (b': seq<State>)
    requires Behavior(b) && t < |Last(b).threads| && Last(b).threads[t] == StopJoin(a, dead, swept)
    requires a < |Last(b).actors| && Last(b).actors[a].pc == Exited
    ensures Continues(b, b')
    ensures Last(b') == Goto(Last(b), t, StopNext(dead, swept)).(deleted := Last(b).deleted + {a})
  {
    var s := Last(b);
    var s1 := Goto(s, t, StopDelete(a, dead, swept));
    var b1 := ClientGoes(b, t, s1);
    b' := ClientGoes(b1, t, Goto(s1, t, StopNext(dead, swept)).(deleted := s.deleted + {a}));
    assert Last(b').threads == Goto(s, t, StopNext(dead, swept)).threads;
  }

  // The other clients are where they were, the registry is as it was, and what was accepted stands.
  ghost predicate Undisturbed(s: State, s': State, t: nat) {
    && s'.registry == s.registry && s'.lock == s.lock
    && |s'.threads| == |s.threads| && (forall t' | 0 <= t' < |s.threads| && t' != t :: s'.threads[t'] == s.threads[t'])
    && |s'.actors| == |s.actors|
    && forall a | 0 <= a < |s.actors| :: s'.actors[a].accepted == s.actors[a].accepted
  }

  lemma {:induction false} StopsThem(b: seq<State>, t: nat, dead: set<nat>, swept: set<nat>) returns (b': seq<State>)
    requires Behavior(b) && t < |Last(b).threads| && Last(b).threads[t] == StopNext(dead, swept)
    ensures Continues(b, b') && t < |Last(b').threads| && Last(b').threads[t] == Stopped(swept)
    ensures Undisturbed(Last(b), Last(b'), t)
    decreases |dead|
  {
    if dead == {} {
      b' := ClientGoes(b, t, Goto(Last(b), t, Stopped(swept)));
    } else {
      var a :| a in dead;
      var b1 := StopsOne(b, t, a, dead, swept);
      b' := StopsThem(b1, t, dead - {a}, swept);
    }
  }

  /** stopAll can always return: from any state in which the registry is not locked, the caller and the
      actors, without any other client, can go on until all that was registered is stopped. */
  lemma StopAllReturns(b: seq<State>, t: nat) returns (b': seq<State>)
    requires Behavior(b) && Last(b).lock == Free && t < |Last(b).threads| && Last(b).threads[t] == Idle
    ensures Continues(b, b') && t < |Last(b').threads| && Last(b').threads[t] == Stopped(Last(b).registry)
    ensures |Last(b').threads| == |Last(b).threads| && |Last(b').actors| == |Last(b).actors|
    ensures forall a | 0 <= a < |Last(b).actors| :: Last(b').actors[a].accepted == Last(b).actors[a].accepted
  {
    var b1 := StopAllSweeps(b, t);
    b' := StopsThem(b1, t, Last(b).registry, Last(b).registry);
  }

  /** A run in which all goes well: a task that was executed through the registry is done when stopAll
      returns. */
  lemma TaskIsAcceptedAndRun(task: Task) returns (b: seq<State>)
    requires task.sender == 1 && !task.direct
    ensures Behavior(b) && |Last(b).threads| == 2 && Last(b).threads[0] == Stopped({0})
    ensures |Last(b).actors| == 1 && Of(Last(b).actors[0].done, 1) == [task]
  {
    var b0 := Spawned();
    var b1 := ExecuteGoesThrough(b0, 1, 0, task);
    b := StopAllReturns(b1, 0);
    assert Last(b1).actors[0] == Enqueue(Fresh(2), task) && Last(b1).actors[0].accepted[1] == [] + [task];
    DoneIsAccepted(b, task);
  }

  lemma DoneIsAccepted(b: seq<State>, task: Task)
    requires Behavior(b) && |Last(b).threads| == 2 && Last(b).threads[0] == Stopped({0}) && !task.direct
    requires |Last(b).actors| == 1 && 1 < |Last(b).actors[0].accepted| && Last(b).actors[0].accepted[1] == [task]
    ensures Of(Last(b).actors[0].done, 1) == [task]
  {
    var act := Last(b).actors[0];
    RegisteredTasksAreRun(b, |b| - 1, 0, 0, 1);
    NothingIsLostOrReordered(b, |b| - 1, 0, 1);
    assert Of(InFlight(act.pc), 1) == [];
    var done := Of(act.done, 1);
    assert [task][..0] == [];
    assert done + act.box[1] == [task];
    assert Registered([task]) == [task];
  }
}
