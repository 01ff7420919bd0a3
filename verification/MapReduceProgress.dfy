// Progress: a job with input files can always still be finished, whatever has happened so far.
module MapReduceProgress {
  import opened GroupReduce
  import opened Coordination
  import opened MapReduce
  import opened Naming

  ghost function Last(run: seq<World>): World
    requires run != []
  {
    run[|run| - 1]
  }

  // A longer run that goes on from this one.
  ghost predicate Continues(job: Job, run: seq<World>, longer: seq<World>)
  {
    IsRun(job, longer) && run <= longer
  }

  lemma OneMore(job: Job, run: seq<World>, w: World)
    requires IsRun(job, run) && Next(job, Last(run), w)
    ensures Continues(job, run, run + [w])
  {
    var longer := run + [w];
    forall i: nat | i < |longer| - 1 ensures StepAt(job, longer, i) {
      if i < |run| - 1 {
        assert StepAt(job, run, i);
      }
    }
  }

  lemma WorkerMoves(job: Job, run: seq<World>, w: World, id: nat)
    requires IsRun(job, run) && WorkerStep(job, Last(run), w, id)
    ensures Continues(job, run, run + [w])
  {
    OneMore(job, run, w);
  }

  // ---- Workers at work ----

  // A worker goes on with what it is doing: no crash, and no new worker.
  ghost predicate Diligent(job: Job, w: World, w': World, id: nat)
  {
    || Ask(job, w, w', id) || RenamePart(w, w', id) || FinishMap(w, w', id)
    || LoadPart(w, w', id) || Reduce(job, w, w', id) || RenameOutput(w, w', id) || Send(w, w', id)
  }

  ghost predicate DiligentAt(job: Job, run: seq<World>, i: nat)
    requires i < |run| - 1
  {
    SomeDiligent(job, run[i], run[i + 1])
  }

  ghost predicate SomeDiligent(job: Job, w: World, w': World)
  {
    exists id :: Diligent(job, w, w', id)
  }

  // The longer run goes on by such steps only.
  ghost predicate Diligently(job: Job, run: seq<World>, longer: seq<World>)
  {
    run != [] && run <= longer && forall i: nat :: |run| - 1 <= i < |longer| - 1 ==> DiligentAt(job, longer, i)
  }

  lemma DiligentMove(job: Job, run: seq<World>, w: World, id: nat) returns (longer: seq<World>)
    requires IsRun(job, run) && Diligent(job, Last(run), w, id)
    ensures longer == run + [w] && Continues(job, run, longer) && Diligently(job, run, longer)
  {
    assert WorkerStep(job, Last(run), w, id);
    WorkerMoves(job, run, w, id);
    longer := run + [w];
    assert Diligent(job, longer[|run| - 1], longer[|run|], id);
  }

  lemma DiligentTwice(job: Job, a: seq<World>, b: seq<World>, c: seq<World>)
    requires Diligently(job, a, b) && Diligently(job, b, c)
    ensures Diligently(job, a, c)
  {
    forall i: nat | |a| - 1 <= i < |c| - 1 ensures DiligentAt(job, c, i) {
      if i < |b| - 1 {
        assert DiligentAt(job, b, i);
        assert b[i] == c[i] && b[i + 1] == c[i + 1];
      }
    }
  }

  // ---- A fresh worker, asking when every pending assignment has timed out ----

  ghost predicate AllOverdue(tasks: seq<Task>, now: int)
  {
    forall i :: 0 <= i < |tasks| ==> now - tasks[i].stamp > TIMEOUT
  }

  lemma {:induction false} LateEnough(tasks: seq<Task>, from: int) returns (now: int)
    ensures now >= from && AllOverdue(tasks, now)
  {
    if tasks == [] {
      now := from;
    } else {
      var n := |tasks| - 1;
      now := LateEnough(tasks[..n], from);
      if now - tasks[n].stamp <= TIMEOUT {
        now := tasks[n].stamp + TIMEOUT + 1;
      }
    }
  }

  function Constant(now: int): nat -> int
  {
    _ => now
  }

  // A table that is not complete has a free task once everything pending is overdue.
  lemma FirstUnfinished(tasks: seq<Task>, now: int)
    requires AllOverdue(tasks, now) && exists i :: 0 <= i < |tasks| && tasks[i].status != Success
    ensures var k := FirstFree(tasks, Constant(now), 0); k < |tasks| && tasks[k].status != Success
  {
    var i :| 0 <= i < |tasks| && tasks[i].status != Success;
    assert Free(tasks[i], Constant(now)(i));
  }

  // A worker that has never been seen starts, asks at the given time and begins what it is told.
  lemma Engage(job: Job, run: seq<World>, now: int, next: Worker) returns (longer: seq<World>, id: nat)
    requires IsRun(job, run) && Last(run).now <= now && |Last(run).c.maps| == |Last(run).c.files|
    requires Begins(job, Assign(Last(run).c, Constant(now)).1, next)
    ensures Continues(job, run, longer)
    ensures Last(longer).c == Assign(Last(run).c, Constant(now)).0
    ensures id in Last(longer).workers && Last(longer).workers[id] == next && Last(longer).now == now
    ensures var reply := Assign(Last(run).c, Constant(now)).1;
            Last(longer).history ==
            Last(run).history + if reply.Work? then [Assignment(reply.kind, reply.id, now)] else []
  {
    var w := Last(run);
    id := FreshId(w.workers.Keys);
    var w1 := w.(workers := w.workers[id := Idle]);
    assert StartWorker(w, w1, id);
    WorkerMoves(job, run, w1, id);
    longer := run + [w1];
    var (c, reply) := Assign(w.c, Constant(now));
    var history := if reply.Work? then w.history + [Assignment(reply.kind, reply.id, now)] else w.history;
    var w2 := w1.(c := c, now := now, history := history, workers := w1.workers[id := next]);
    assert Asked(w1, w2, Constant(now), reply);
    assert Ask(job, w1, w2, id);
    WorkerMoves(job, longer, w2, id);
    longer := longer + [w2];
  }

  // ---- Carrying out a task ----

  lemma RenameAll(job: Job, run: seq<World>, id: nat) returns (longer: seq<World>)
    requires IsRun(job, run) && id in Last(run).workers && Last(run).workers[id].Mapping?
    requires Last(run).workers[id].renamed <= |Last(run).workers[id].buckets|
    ensures Continues(job, run, longer) && Last(longer).c == Last(run).c
    ensures id in Last(longer).workers && Last(longer).workers[id].Mapping?
    ensures Last(longer).workers == Last(run).workers[id := Last(longer).workers[id]]
    ensures Diligently(job, run, longer)
    ensures Last(longer).workers[id].m == Last(run).workers[id].m
    ensures Last(longer).workers[id].renamed == |Last(longer).workers[id].buckets|
    decreases |Last(run).workers[id].buckets| - Last(run).workers[id].renamed
  {
    var w := Last(run);
    var k := w.workers[id];
    if k.renamed == |k.buckets| {
      longer := run;
    } else {
      var w' := w.(parts := w.parts[(k.m, k.renamed) := k.buckets[k.renamed]],
                   workers := w.workers[id := k.(renamed := k.renamed + 1)]);
      assert RenamePart(w, w', id);
      var next := DiligentMove(job, run, w', id);
      longer := RenameAll(job, next, id);
      DiligentTwice(job, run, next, longer);
    }
  }

  lemma LoadAll(job: Job, run: seq<World>, id: nat) returns (longer: seq<World>)
    requires WellFormed(job) && IsRun(job, run) && id in Last(run).workers && Last(run).workers[id].Loading?
    requires Last(run).workers[id].loaded <= |Last(run).workers[id].inputs|
    ensures Continues(job, run, longer) && Last(longer).c == Last(run).c
    ensures id in Last(longer).workers && Last(longer).workers[id].Loading?
    ensures Last(longer).workers == Last(run).workers[id := Last(longer).workers[id]]
    ensures Diligently(job, run, longer)
    ensures Last(longer).workers[id].r == Last(run).workers[id].r
    ensures Last(longer).workers[id].loaded == |Last(longer).workers[id].inputs|
    decreases |Last(run).workers[id].inputs| - Last(run).workers[id].loaded
  {
    var w := Last(run);
    var k := w.workers[id];
    if k.loaded == |k.inputs| {
      longer := run;
    } else {
      NoMissingInput(job, run, |run| - 1, id);
      var f := k.inputs[k.loaded];
      var w' := w.(workers := w.workers[id := k.(loaded := k.loaded + 1, pairs := k.pairs + w.parts[(f.m, f.r)])]);
      assert LoadPart(w, w', id);
      var next := DiligentMove(job, run, w', id);
      longer := LoadAll(job, next, id);
      DiligentTwice(job, run, next, longer);
    }
  }

  lemma WriteOutput(job: Job, run: seq<World>, id: nat) returns (longer: seq<World>)
    requires IsRun(job, run) && id in Last(run).workers && Last(run).workers[id].Loading?
    requires Last(run).workers[id].loaded == |Last(run).workers[id].inputs|
    ensures Continues(job, run, longer) && Last(longer).c == Last(run).c
    ensures id in Last(longer).workers
    ensures Last(longer).workers == Last(run).workers[id := Last(longer).workers[id]]
    ensures Diligently(job, run, longer)
    ensures Last(longer).workers[id] == Reporting(Message(ReduceTask, Last(run).workers[id].r))
  {
    var w := Last(run);
    var k := w.workers[id];
    var sorted, lines := OutputExists(k.pairs, job.reducef);
    var w1 := w.(workers := w.workers[id := Writing(k.r, lines)]);
    assert Reduce(job, w, w1, id);
    var next := DiligentMove(job, run, w1, id);
    longer := PublishOutput(job, next, id);
    DiligentTwice(job, run, next, longer);
  }

  lemma PublishOutput(job: Job, run: seq<World>, id: nat) returns (longer: seq<World>)
    requires IsRun(job, run) && id in Last(run).workers && Last(run).workers[id].Writing?
    ensures Continues(job, run, longer) && Last(longer).c == Last(run).c && Diligently(job, run, longer)
    ensures Last(longer).workers ==
            Last(run).workers[id := Reporting(Message(ReduceTask, Last(run).workers[id].r))]
  {
    var w := Last(run);
    var k := w.workers[id];
    var w' := w.(outs := w.outs[k.r := k.lines], workers := w.workers[id := Reporting(Message(ReduceTask, k.r))]);
    assert RenameOutput(w, w', id);
    longer := DiligentMove(job, run, w', id);
  }

  lemma ReportBack(job: Job, run: seq<World>, id: nat) returns (longer: seq<World>)
    requires IsRun(job, run) && id in Last(run).workers && Last(run).workers[id].Reporting?
    requires var x := Last(run).workers[id].message;
             x.id < if x.kind == MapTask then |Last(run).c.maps| else |Last(run).c.reduces|
    ensures Continues(job, run, longer)
    ensures var x := Last(run).workers[id].message; Last(longer).c == Complete(Last(run).c, x.kind, x.id)
  {
    var w := Last(run);
    var x := w.workers[id].message;
    var w1 := w.(mail := w.mail + {x}, workers := w.workers[id := Idle]);
    assert Send(w, w1, id);
    WorkerMoves(job, run, w1, id);
    var w2 := w1.(c := Complete(w1.c, x.kind, x.id));
    assert Deliver(w1, w2, x);
    OneMore(job, run + [w1], w2);
    longer := run + [w1] + [w2];
  }

  // ---- One more task done ----

  function Remaining(c: State): nat
  {
    |c.maps| - Successes(c.maps) + (|c.reduces| - Successes(c.reduces))
  }

  // Handing out an unfinished task and completing it leaves one task less.
  lemma AssignThenComplete(c: State, now: int)
    requires |c.maps| == |c.files| && Assign(c, Constant(now)).1.Work?
    requires var k := Assign(c, Constant(now)).1;
             if k.kind == MapTask then c.maps[k.id].status != Success else c.reduces[k.id].status != Success
    ensures var (d, k) := Assign(c, Constant(now)); Remaining(Complete(d, k.kind, k.id)) == Remaining(c) - 1
  {
    var (d, k) := Assign(c, Constant(now));
    if k.kind == MapTask {
      SuccessesUpdate(c.maps, k.id, Task(Assigned, now));
      SuccessesUpdate(d.maps, k.id, d.maps[k.id].(status := Success));
    } else {
      SuccessesUpdate(c.reduces, k.id, Task(Assigned, now));
      SuccessesUpdate(d.reduces, k.id, d.reduces[k.id].(status := Success));
    }
  }

  // A worker that has just executed map task m.
  function Mapped(job: Job, m: nat): Worker
    requires m < |job.files| && job.nReduce > 0
  {
    Mapping(m, seq(job.nReduce, r requires r >= 0 => Bucket(MapOutput(job, m), job.hash, job.nReduce, r)), 0)
  }

  lemma MappedBegins(job: Job, m: nat)
    requires m < |job.files| && job.nReduce > 0
    ensures Begins(job, Work(MapTask, m, [Input(job.files[m])]), Mapped(job, m))
  {
    assert IsMapExecution(job, m, MapOutput(job, m));
  }

  lemma OneMapMore(job: Job, run: seq<World>, now: int) returns (longer: seq<World>)
    requires WellFormed(job) && IsRun(job, run) && job.files != [] && !Last(run).c.mapsDone
    requires Last(run).now <= now && AllOverdue(Last(run).c.maps, now)
    ensures Continues(job, run, longer) && Remaining(Last(longer).c) < Remaining(Last(run).c)
  {
    var c := Last(run).c;
    RunKeeps(job, run, |run| - 1);
    FirstUnfinished(c.maps, now);
    var m := FirstFree(c.maps, Constant(now), 0);
    MappedBegins(job, m);
    var id;
    longer, id := Engage(job, run, now, Mapped(job, m));
    longer := FinishMapTask(job, longer, id);
    longer := ReportBack(job, longer, id);
    AssignThenComplete(c, now);
  }

  lemma OneReduceMore(job: Job, run: seq<World>, now: int) returns (longer: seq<World>)
    requires WellFormed(job) && IsRun(job, run) && Last(run).c.mapsDone && !Last(run).c.allDone
    requires Last(run).now <= now && AllOverdue(Last(run).c.reduces, now)
    ensures Continues(job, run, longer) && Remaining(Last(longer).c) < Remaining(Last(run).c)
  {
    var c := Last(run).c;
    RunKeeps(job, run, |run| - 1);
    FirstUnfinished(c.reduces, now);
    var reply := Assign(c, Constant(now)).1;
    var id;
    longer, id := Engage(job, run, now, Loading(reply.id, reply.files, 0, []));
    longer := LoadAll(job, longer, id);
    longer := WriteOutput(job, longer, id);
    longer := ReportBack(job, longer, id);
    AssignThenComplete(c, now);
  }

  // Main result: whatever has happened so far (crashes, lost replies, stale assignments), a run of a
  // job with input files can be continued to one in which Done() holds.
  lemma {:induction false} EveryRunCanFinish(job: Job, run: seq<World>) returns (longer: seq<World>)
    requires WellFormed(job) && IsRun(job, run) && job.files != []
    ensures Continues(job, run, longer) && Last(longer).c.allDone
    decreases Remaining(Last(run).c)
  {
    var c := Last(run).c;
    if c.allDone {
      longer := run;
    } else {
      if c.mapsDone {
        var now := LateEnough(c.reduces, Last(run).now);
        longer := OneReduceMore(job, run, now);
      } else {
        var now := LateEnough(c.maps, Last(run).now);
        longer := OneMapMore(job, run, now);
      }
      longer := EveryRunCanFinish(job, longer);
    }
  }

  ghost predicate CanBeDone(job: Job)
  {
    exists run :: IsRun(job, run) && Last(run).c.allDone
  }

  // Without reduce tasks the last flag is never raised: only the completion of a reduce task raises it.
  lemma {:induction false} NoReducesNeverDone(job: Job, run: seq<World>, i: nat)
    requires IsRun(job, run) && i < |run| && job.nReduce == 0
    ensures run[i].c.reduces == [] && !run[i].c.allDone
  {
    if i > 0 {
      NoReducesNeverDone(job, run, i - 1);
      assert StepAt(job, run, i - 1);
      CoordinatorSteps(job, run[i - 1], run[i]);
    }
  }

  // A job becomes done in some run exactly when it has an input file and a reduce task.
  lemma DoneExactlyWithTasks(job: Job)
    requires OrderInsensitive(job.reducef)
    ensures CanBeDone(job) <==> job.files != [] && job.nReduce > 0
  {
    if job.files != [] && job.nReduce > 0 {
      var w := World(Fresh(job.files, job.nReduce), map[], map[], map[], {}, 0, []);
      assert IsRun(job, [w]);
      var run := EveryRunCanFinish(job, [w]);
    } else if CanBeDone(job) {
      var run :| IsRun(job, run) && Last(run).c.allDone;
      if job.nReduce == 0 {
        NoReducesNeverDone(job, run, |run| - 1);
      } else {
        NoFilesNeverDone(job, run, |run| - 1);
      }
    }
  }

  // A task whose worker has fallen silent is handed out again once more than ten seconds have passed.
  lemma SilentTaskIsReassigned(job: Job, later: int) returns (run: seq<World>)
    requires WellFormed(job) && job.files != [] && later > 10_000
    ensures IsRun(job, run)
    ensures Last(run).history == [Assignment(MapTask, 0, 0), Assignment(MapTask, 0, later)]
  {
    var w := World(Fresh(job.files, job.nReduce), map[], map[], map[], {}, 0, []);
    assert IsRun(job, [w]);
    MappedBegins(job, 0);
    var id;
    run, id := Engage(job, [w], 0, Mapped(job, 0));
    run, id := Engage(job, run, later, Mapped(job, 0));
  }

  // Reductions that look only at the number of values, as word count does, meet what is asked of them.
  lemma CountingIsOrderInsensitive(reducef: Reducer, text: nat -> string)
    requires forall k, vals :: reducef(k, vals) == text(|vals|)
    ensures OrderInsensitive(reducef)
  {
    forall k, a: seq<string>, b: seq<string> | multiset(a) == multiset(b) ensures reducef(k, a) == reducef(k, b) {
      assert |multiset(a)| == |a| && |multiset(b)| == |b|;
    }
  }

  // ---- Everyone goes home ----

  lemma SendReport(job: Job, run: seq<World>, id: nat) returns (longer: seq<World>)
    requires IsRun(job, run) && id in Last(run).workers && Last(run).workers[id].Reporting?
    ensures Continues(job, run, longer) && Last(longer).c == Last(run).c && Diligently(job, run, longer)
    ensures Last(longer).workers == Last(run).workers[id := Idle]
  {
    var w := Last(run);
    var w' := w.(mail := w.mail + {w.workers[id].message}, workers := w.workers[id := Idle]);
    assert Send(w, w', id);
    longer := DiligentMove(job, run, w', id);
  }

  lemma FinishMapTask(job: Job, run: seq<World>, id: nat) returns (longer: seq<World>)
    requires IsRun(job, run) && id in Last(run).workers && Last(run).workers[id].Mapping?
    requires Last(run).workers[id].renamed <= |Last(run).workers[id].buckets|
    ensures Continues(job, run, longer) && Last(longer).c == Last(run).c && Diligently(job, run, longer)
    ensures Last(longer).workers == Last(run).workers[id := Reporting(Message(MapTask, Last(run).workers[id].m))]
  {
    var next := RenameAll(job, run, id);
    var w := Last(next);
    var w' := w.(workers := w.workers[id := Reporting(Message(MapTask, w.workers[id].m))]);
    assert FinishMap(w, w', id);
    longer := DiligentMove(job, next, w', id);
    DiligentTwice(job, run, next, longer);
  }

  lemma FinishReduceTask(job: Job, run: seq<World>, id: nat) returns (longer: seq<World>)
    requires WellFormed(job) && IsRun(job, run) && id in Last(run).workers && Last(run).workers[id].Loading?
    requires Last(run).workers[id].loaded <= |Last(run).workers[id].inputs|
    ensures Continues(job, run, longer) && Last(longer).c == Last(run).c && Diligently(job, run, longer)
    ensures Last(longer).workers == Last(run).workers[id := Reporting(Message(ReduceTask, Last(run).workers[id].r))]
  {
    var next := LoadAll(job, run, id);
    longer := WriteOutput(job, next, id);
    DiligentTwice(job, run, next, longer);
  }

  // Whatever a worker is doing, it can finish it and be idle.
  lemma BecomeIdle(job: Job, run: seq<World>, id: nat) returns (longer: seq<World>)
    requires WellFormed(job) && IsRun(job, run) && id in Last(run).workers && Last(run).workers[id] != Gone
    ensures Continues(job, run, longer) && Last(longer).c == Last(run).c && Diligently(job, run, longer)
    ensures Last(longer).workers == Last(run).workers[id := Idle]
  {
    RunKeeps(job, run, |run| - 1);
    assert GoodWorker(job, Last(run), Last(run).workers[id]);
    longer := run;
    match Last(run).workers[id] {
      case Idle => return;
      case Mapping(_, _, _) => longer := FinishMapTask(job, run, id);
      case Loading(_, _, _, _) => longer := FinishReduceTask(job, run, id);
      case Writing(_, _) => longer := PublishOutput(job, run, id);
      case Reporting(_) =>
    }
    var next := longer;
    longer := SendReport(job, next, id);
    DiligentTwice(job, run, next, longer);
  }

  // Once everything is done, its next request sends it away.
  lemma GoHome(job: Job, run: seq<World>, id: nat) returns (longer: seq<World>)
    requires WellFormed(job) && IsRun(job, run) && Last(run).c.allDone
    requires id in Last(run).workers && Last(run).workers[id] != Gone
    ensures Continues(job, run, longer) && Last(longer).c == Last(run).c && Diligently(job, run, longer)
    ensures Last(longer).workers == Last(run).workers[id := Gone]
  {
    var next := BecomeIdle(job, run, id);
    var w := Last(next);
    RunKeeps(job, next, |next| - 1);
    RepliesExactly(w.c, Constant(w.now));
    var w' := w.(workers := w.workers[id := Gone]);
    assert Asked(w, w', Constant(w.now), Exit);
    assert Ask(job, w, w', id);
    longer := DiligentMove(job, next, w', id);
    DiligentTwice(job, run, next, longer);
  }

  ghost function Live(w: World): set<nat>
  {
    set id | id in w.workers && w.workers[id] != Gone
  }

  // Main result: a done run can be continued, by nothing but workers going on with their work, until every
  // worker has been told to exit.
  lemma {:induction false} DoneRunCanEnd(job: Job, run: seq<World>) returns (longer: seq<World>)
    requires WellFormed(job) && IsRun(job, run) && Last(run).c.allDone
    ensures Continues(job, run, longer) && Last(longer).c == Last(run).c && Diligently(job, run, longer)
    ensures forall id :: id in Last(longer).workers ==> Last(longer).workers[id] == Gone
    decreases Live(Last(run))
  {
    if id :| id in Live(Last(run)) {
      var next := GoHome(job, run, id);
      assert Live(Last(next)) == Live(Last(run)) - {id};
      longer := DoneRunCanEnd(job, next);
      DiligentTwice(job, run, next, longer);
    } else {
      longer := run;
      forall id | id in Last(run).workers ensures Last(run).workers[id] == Gone {
        assert id !in Live(Last(run));
      }
    }
  }

  lemma SequentialOutputExists(job: Job) returns (lines: seq<Line>)
    ensures IsSequentialOutput(job, lines)
  {
    var all := AllPairs(job, |job.files|);
    var sorted;
    sorted, lines := OutputExists(all, job.reducef);
  }

  // Every run of a job with input files can be continued to one whose output files hold the lines of
  // the sequential program.
  lemma EveryRunCanFinishRight(job: Job, run: seq<World>) returns (longer: seq<World>, lines: seq<Line>)
    requires WellFormed(job) && IsRun(job, run) && job.files != []
    ensures Continues(job, run, longer) && Last(longer).c.allDone && IsSequentialOutput(job, lines)
    ensures forall r: nat :: r < job.nReduce ==> r in Last(longer).outs
    ensures multiset(Gathered(Last(longer).outs, job.nReduce)) == multiset(lines)
  {
    longer := EveryRunCanFinish(job, run);
    lines := SequentialOutputExists(job);
    DoneRefinesSequential(job, longer, |longer| - 1, lines);
  }
}
