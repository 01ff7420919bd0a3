// When tasks are handed out again: never within the timeout, and never at all if workers are prompt.
module MapReduceTiming {
  import opened Coordination
  import opened MapReduce

  ghost predicate Exists(c: State, kind: TaskKind, id: nat)
  {
    id < if kind == MapTask then |c.maps| else |c.reduces|
  }

  ghost function TaskOf(c: State, kind: TaskKind, id: nat): Task
    requires Exists(c, kind, id)
  {
    if kind == MapTask then c.maps[id] else c.reduces[id]
  }

  ghost predicate SameTask(a: Assignment, b: Assignment)
  {
    a.kind == b.kind && a.id == b.id
  }

  // A task in the history is no longer Todo and was not stamped before any of its assignments.
  ghost predicate Recorded(c: State, a: Assignment)
  {
    Exists(c, a.kind, a.id) && TaskOf(c, a.kind, a.id).status != Todo && a.time <= TaskOf(c, a.kind, a.id).stamp
  }

  ghost predicate Apart(history: seq<Assignment>)
  {
    forall i, j :: 0 <= i < j < |history| && SameTask(history[i], history[j]) ==>
                     history[j].time - history[i].time > TIMEOUT
  }

  ghost predicate Timely(w: World)
  {
    (forall i :: 0 <= i < |w.history| ==> Recorded(w.c, w.history[i])) && Apart(w.history)
  }

  // The one assignment a request may make: of a task that was free when its turn came.
  lemma AskedEffect(w: World, w': World, clock: nat -> int, reply: Reply)
    requires Asked(w, w', clock, reply)
    ensures reply.Work? ==>
              && Exists(w.c, reply.kind, reply.id) && Exists(w'.c, reply.kind, reply.id)
              && Free(TaskOf(w.c, reply.kind, reply.id), clock(reply.id))
              && TaskOf(w'.c, reply.kind, reply.id) == Task(Assigned, clock(reply.id + 1))
              && w'.history == w.history + [Assignment(reply.kind, reply.id, clock(reply.id + 1))]
    ensures forall kind, id :: Exists(w.c, kind, id) && !(reply.Work? && reply.kind == kind && reply.id == id) ==>
                                 Exists(w'.c, kind, id) && TaskOf(w'.c, kind, id) == TaskOf(w.c, kind, id)
  {
  }

  lemma AskedIsTimely(w: World, w': World, clock: nat -> int, reply: Reply)
    requires Timely(w) && Asked(w, w', clock, reply)
    ensures Timely(w')
  {
    AskedEffect(w, w', clock, reply);
    if reply.Work? {
      var a := Assignment(reply.kind, reply.id, clock(reply.id + 1));
      assert clock(reply.id) <= a.time;
      forall i | 0 <= i < |w.history|
        ensures Recorded(w'.c, w.history[i])
        ensures SameTask(w.history[i], a) ==> a.time - w.history[i].time > TIMEOUT
      {
        assert Recorded(w.c, w.history[i]);
      }
    } else {
      forall i | 0 <= i < |w.history| ensures Recorded(w'.c, w.history[i]) {
        assert Recorded(w.c, w.history[i]);
      }
    }
  }

  lemma DeliverIsTimely(w: World, w': World, x: Message)
    requires Timely(w) && Deliver(w, w', x)
    ensures Timely(w')
  {
  }

  lemma NextIsTimely(job: Job, w: World, w': World)
    requires Timely(w) && Next(job, w, w')
    ensures Timely(w')
  {
    CoordinatorSteps(job, w, w');
    if SomeAsked(w, w') {
      var clock: nat -> int, reply :| Asked(w, w', clock, reply);
      AskedIsTimely(w, w', clock, reply);
    } else if x :| Deliver(w, w', x) {
      DeliverIsTimely(w, w', x);
    }
  }

  // Two assignments of one task are always more than ten seconds apart.
  lemma {:induction false} RunIsTimely(job: Job, run: seq<World>, i: nat)
    requires IsRun(job, run) && i < |run|
    ensures Timely(run[i])
    ensures forall a, b :: 0 <= a < b < |run[i].history| && SameTask(run[i].history[a], run[i].history[b]) ==>
                             run[i].history[b].time - run[i].history[a].time > 10_000
  {
    if i > 0 {
      RunIsTimely(job, run, i - 1);
      assert StepAt(job, run, i - 1);
      NextIsTimely(job, run[i - 1], run[i]);
    }
  }

  // So k assignments of one task span at least k - 1 timeouts.
  lemma {:induction false} SpanOfAssignments(history: seq<Assignment>, picks: seq<nat>)
    requires Apart(history) && picks != []
    requires forall i :: 0 <= i < |picks| ==> picks[i] < |history|
    requires forall i :: 0 <= i < |picks| ==> SameTask(history[picks[i]], history[picks[0]])
    requires forall i, j :: 0 <= i < j < |picks| ==> picks[i] < picks[j]
    ensures history[picks[|picks| - 1]].time - history[picks[0]].time >= 10_000 * (|picks| - 1)
  {
    var n := |picks| - 1;
    if n > 0 {
      SpanOfAssignments(history, picks[..n]);
      assert SameTask(history[picks[n - 1]], history[picks[n]]);
    }
  }

  // No assigned task is left alone for longer than the timeout while this step is taken.
  ghost predicate Prompt(w: World, w': World)
  {
    forall kind, id :: Exists(w.c, kind, id) && TaskOf(w.c, kind, id).status == Assigned ==>
                         w'.now - TaskOf(w.c, kind, id).stamp <= TIMEOUT
  }

  ghost predicate NoneTwice(history: seq<Assignment>)
  {
    forall i, j :: 0 <= i < j < |history| ==> !SameTask(history[i], history[j])
  }

  lemma PromptStep(job: Job, w: World, w': World)
    requires Timely(w) && NoneTwice(w.history) && Next(job, w, w') && Prompt(w, w')
    ensures NoneTwice(w'.history)
  {
    CoordinatorSteps(job, w, w');
    if SomeAsked(w, w') {
      var clock: nat -> int, reply :| Asked(w, w', clock, reply);
      AskedEffect(w, w', clock, reply);
      if reply.Work? {
        assert clock(reply.id) <= w'.now;
        forall i | 0 <= i < |w.history| ensures !SameTask(w.history[i], w'.history[|w.history|]) {
          assert Recorded(w.c, w.history[i]);
        }
      }
    }
  }

  // If every completion arrives within ten seconds, no task is ever handed out twice.
  lemma {:induction false} PromptWorkersGetEachTaskOnce(job: Job, run: seq<World>, i: nat)
    requires IsRun(job, run) && i < |run|
    requires forall k: nat :: k < i ==> Prompt(run[k], run[k + 1])
    ensures NoneTwice(run[i].history)
  {
    if i > 0 {
      PromptWorkersGetEachTaskOnce(job, run, i - 1);
      RunIsTimely(job, run, i - 1);
      assert StepAt(job, run, i - 1);
      assert Prompt(run[i - 1], run[i - 1 + 1]);
      PromptStep(job, run[i - 1], run[i]);
    }
  }
}
