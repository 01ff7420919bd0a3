// The crash-tolerant coordinator/worker protocol as a state machine over its steps, its invariant,
// and the theorem that a finished job has written what the sequential program writes.
module MapReduce {
  import opened GroupReduce
  import opened Coordination

  // ---- The job ----

  datatype Job = Job(
    files: seq<string>, contents: string -> string, mapf: (string, string) -> seq<KV>,
    reducef: Reducer, hash: string -> nat, nReduce: nat)

  ghost predicate WellFormed(job: Job)
  {
    job.nReduce > 0 && OrderInsensitive(job.reducef)
  }

  function MapOutput(job: Job, m: nat): seq<KV>
    requires m < |job.files|
  {
    job.mapf(job.files[m], job.contents(job.files[m]))
  }

  // One execution of a map task; a repeated one may emit the pairs in another order.
  ghost predicate IsMapExecution(job: Job, m: nat, kvs: seq<KV>)
  {
    m < |job.files| && multiset(kvs) == multiset(MapOutput(job, m))
  }

  // The pairs of the first n files, in file order.
  function AllPairs(job: Job, n: nat): seq<KV>
    requires n <= |job.files|
  {
    if n == 0 then [] else AllPairs(job, n - 1) + MapOutput(job, n - 1)
  }

  // What belongs in file mr-m-r, and what reduce task r works on in total.
  function Part(job: Job, m: nat, r: nat): seq<KV>
    requires m < |job.files| && job.nReduce > 0
  {
    Bucket(MapOutput(job, m), job.hash, job.nReduce, r)
  }

  function Share(job: Job, n: nat, r: nat): seq<KV>
    requires n <= |job.files| && job.nReduce > 0
  {
    Bucket(AllPairs(job, n), job.hash, job.nReduce, r)
  }

  // ---- The world ----

  datatype Message = Message(kind: TaskKind, id: nat)

  datatype Worker =
    | Idle
    | Mapping(m: nat, buckets: seq<seq<KV>>, renamed: nat)
    | Loading(r: nat, inputs: seq<FileName>, loaded: nat, pairs: seq<KV>)
    | Writing(r: nat, lines: seq<Line>)
    | Reporting(message: Message)
    | Gone

  datatype Assignment = Assignment(kind: TaskKind, id: nat, time: int)

  // The file store holds complete files only, since each is renamed into place; mail holds every
  // completion message sent so far, so that it may arrive late, twice or never.
  datatype World = World(
    c: State, parts: map<(nat, nat), seq<KV>>, outs: map<nat, seq<Line>>,
    workers: map<nat, Worker>, mail: set<Message>, now: int, history: seq<Assignment>)

  ghost predicate Init(job: Job, w: World)
  {
    && w.c == Fresh(job.files, job.nReduce)
    && w.parts == map[] && w.outs == map[] && w.workers == map[] && w.mail == {} && w.history == []
  }

  // ---- The steps ----

  ghost predicate StartWorker(w: World, w': World, id: nat)
  {
    id !in w.workers && w' == w.(workers := w.workers[id := Idle])
  }

  ghost predicate Crash(w: World, w': World, id: nat)
  {
    id in w.workers && w' == w.(workers := w.workers[id := Gone])
  }

  ghost predicate Tick(w: World, w': World)
  {
    w'.now >= w.now && w' == w.(now := w'.now)
  }

  // The coordinator's half of a request for work; the clock readings lie between the two states.
  ghost predicate Asked(w: World, w': World, clock: nat -> int, reply: Reply)
  {
    && |w.c.maps| == |w.c.files|
    && Advances(clock) && w.now <= clock(0)
    && (forall i :: clock(i) <= w'.now)
    && (w'.c, reply) == Assign(w.c, clock)
    && w'.history == (if reply.Work? then w.history + [Assignment(reply.kind, reply.id, clock(reply.id + 1))]
                      else w.history)
    && w'.parts == w.parts && w'.outs == w.outs && w'.mail == w.mail
  }

  // How a worker that has just read its map input or got its reduce inputs goes on.
  ghost predicate Begins(job: Job, reply: Reply, next: Worker)
  {
    match reply
    case Work(kind, id, files) =>
      if kind == MapTask then
        && next.Mapping? && next.m == id && next.renamed == 0
        && id < |job.files| && files == [Input(job.files[id])] && job.nReduce > 0
        && exists kvs :: && IsMapExecution(job, id, kvs)
                         && next.buckets == seq(job.nReduce, r requires r >= 0 => Bucket(kvs, job.hash, job.nReduce, r))
      else next == Loading(id, files, 0, [])
    case Exit => next == Gone
    case Wait => next == Idle
  }

  ghost predicate Ask(job: Job, w: World, w': World, id: nat)
  {
    exists clock: nat -> int, reply ::
      && Asked(w, w', clock, reply)
      && id in w.workers && w.workers[id] == Idle
      && id in w'.workers && Begins(job, reply, w'.workers[id])
      && w'.workers == w.workers[id := w'.workers[id]]
  }

  // The reply is lost, or the worker is gone before it arrives.
  ghost predicate AskInVain(w: World, w': World)
  {
    exists clock: nat -> int, reply :: Asked(w, w', clock, reply) && w'.workers == w.workers
  }

  ghost predicate RenamePart(w: World, w': World, id: nat)
  {
    && id in w.workers && w.workers[id].Mapping?
    && var k := w.workers[id];
    && k.renamed < |k.buckets|
    && w' == w.(parts := w.parts[(k.m, k.renamed) := k.buckets[k.renamed]],
                workers := w.workers[id := k.(renamed := k.renamed + 1)])
  }

  ghost predicate FinishMap(w: World, w': World, id: nat)
  {
    && id in w.workers && w.workers[id].Mapping?
    && var k := w.workers[id];
    && k.renamed == |k.buckets|
    && w' == w.(workers := w.workers[id := Reporting(Message(MapTask, k.m))])
  }

  // Opening the next input of a reduce task; a missing file is fatal for the worker.
  ghost predicate CanLoad(w: World, id: nat)
  {
    && id in w.workers && w.workers[id].Loading?
    && w.workers[id].loaded < |w.workers[id].inputs|
  }

  ghost predicate NextInputPresent(w: World, id: nat)
    requires CanLoad(w, id)
  {
    var k := w.workers[id];
    var f := k.inputs[k.loaded];
    f.Intermediate? && (f.m, f.r) in w.parts
  }

  ghost predicate LoadPart(w: World, w': World, id: nat)
  {
    && CanLoad(w, id) && NextInputPresent(w, id)
    && var k := w.workers[id];
    && var f := k.inputs[k.loaded];
    && w' == w.(workers := w.workers[id := k.(loaded := k.loaded + 1, pairs := k.pairs + w.parts[(f.m, f.r)])])
  }

  ghost predicate LoadMissing(w: World, w': World, id: nat)
  {
    CanLoad(w, id) && !NextInputPresent(w, id) && w' == w.(workers := w.workers[id := Gone])
  }

  // Sort (ties broken in any way), group and reduce into a temporary file.
  ghost predicate Reduce(job: Job, w: World, w': World, id: nat)
  {
    && id in w.workers && w.workers[id].Loading?
    && var k := w.workers[id];
    && k.loaded == |k.inputs|
    && exists sorted, lines ::
         && IsSortOf(k.pairs, sorted) && IsOutput(sorted, job.reducef, lines)
         && w' == w.(workers := w.workers[id := Writing(k.r, lines)])
  }

  ghost predicate RenameOutput(w: World, w': World, id: nat)
  {
    && id in w.workers && w.workers[id].Writing?
    && var k := w.workers[id];
    && w' == w.(outs := w.outs[k.r := k.lines], workers := w.workers[id := Reporting(Message(ReduceTask, k.r))])
  }

  ghost predicate Send(w: World, w': World, id: nat)
  {
    && id in w.workers && w.workers[id].Reporting?
    && w' == w.(mail := w.mail + {w.workers[id].message}, workers := w.workers[id := Idle])
  }

  ghost predicate Deliver(w: World, w': World, x: Message)
  {
    && x in w.mail
    && x.id < (if x.kind == MapTask then |w.c.maps| else |w.c.reduces|)
    && w' == w.(c := Complete(w.c, x.kind, x.id))
  }

  ghost predicate WorkerStep(job: Job, w: World, w': World, id: nat)
  {
    || StartWorker(w, w', id) || Crash(w, w', id) || Ask(job, w, w', id)
    || RenamePart(w, w', id) || FinishMap(w, w', id)
    || LoadPart(w, w', id) || LoadMissing(w, w', id) || Reduce(job, w, w', id)
    || RenameOutput(w, w', id) || Send(w, w', id)
  }

  ghost predicate Next(job: Job, w: World, w': World)
  {
    || Tick(w, w') || AskInVain(w, w')
    || (exists x :: Deliver(w, w', x))
    || (exists id :: WorkerStep(job, w, w', id))
  }

  ghost predicate StepAt(job: Job, run: seq<World>, i: nat)
    requires i < |run| - 1
  {
    Next(job, run[i], run[i + 1])
  }

  ghost predicate IsRun(job: Job, run: seq<World>)
  {
    && run != [] && Init(job, run[0])
    && forall i: nat :: i < |run| - 1 ==> StepAt(job, run, i)
  }

  // ---- The invariant ----

  // File mr-m-r, when it exists, holds the pairs it should hold, in some order.
  ghost predicate GoodPart(job: Job, p: (nat, nat), pairs: seq<KV>)
    requires job.nReduce > 0
  {
    p.0 < |job.files| && p.1 < job.nReduce && multiset(pairs) == multiset(Part(job, p.0, p.1))
  }

  // The content of mr-out-r is settled by the job alone.
  ghost predicate GoodOutput(job: Job, r: nat, lines: seq<Line>)
    requires job.nReduce > 0
  {
    r < job.nReduce && IsOutput(Share(job, |job.files|, r), job.reducef, lines)
  }

  // What a completion message (sent or about to be) vouches for.
  ghost predicate Vouched(job: Job, parts: map<(nat, nat), seq<KV>>, outs: map<nat, seq<Line>>, x: Message)
  {
    match x.kind
    case MapTask => x.id < |job.files| && forall r: nat :: r < job.nReduce ==> (x.id, r) in parts
    case ReduceTask => x.id < job.nReduce && x.id in outs
  }

  ghost predicate GoodWorker(job: Job, w: World, k: Worker)
    requires job.nReduce > 0
  {
    match k
    case Idle => true
    case Gone => true
    case Mapping(m, buckets, renamed) =>
      && m < |job.files| && |buckets| == job.nReduce && renamed <= |buckets|
      && (forall r: nat :: r < job.nReduce ==> GoodPart(job, (m, r), buckets[r]))
      && (forall r: nat :: r < renamed ==> (m, r) in w.parts)
    case Loading(r, inputs, loaded, pairs) =>
      && w.c.mapsDone && r < job.nReduce && inputs == ReduceInputs(|job.files|, r)
      && loaded <= |job.files| && multiset(pairs) == multiset(Share(job, loaded, r))
    case Writing(r, lines) => w.c.mapsDone && GoodOutput(job, r, lines)
    case Reporting(x) => Vouched(job, w.parts, w.outs, x)
  }

  ghost predicate Stored(job: Job, w: World)
    requires job.nReduce > 0
  {
    && (forall p :: p in w.parts ==> GoodPart(job, p, w.parts[p]))
    && (forall r :: r in w.outs ==> GoodOutput(job, r, w.outs[r]))
    && (w.outs != map[] ==> w.c.mapsDone)
  }

  ghost predicate Settled(job: Job, w: World)
  {
    && (forall x :: x in w.mail ==> Vouched(job, w.parts, w.outs, x))
    && (forall m: nat :: m < |w.c.maps| && w.c.maps[m].status == Success ==>
          Vouched(job, w.parts, w.outs, Message(MapTask, m)))
    && (forall r: nat :: r < |w.c.reduces| && w.c.reduces[r].status == Success ==>
          Vouched(job, w.parts, w.outs, Message(ReduceTask, r)))
  }

  ghost predicate Inv(job: Job, w: World)
  {
    && WellFormed(job)
    && Consistent(w.c) && w.c.files == job.files && |w.c.reduces| == job.nReduce
    && Stored(job, w) && Settled(job, w)
    && forall id :: id in w.workers ==> GoodWorker(job, w, w.workers[id])
  }

  lemma InitHolds(job: Job, w: World)
    requires WellFormed(job) && Init(job, w)
    ensures Inv(job, w)
  {
    FreshIsConsistent(job.files, job.nReduce);
  }

  // Facts a worker relies on stay true when files and flags only accumulate.
  ghost predicate Grows(w: World, w': World)
  {
    && w.parts.Keys <= w'.parts.Keys && w.outs.Keys <= w'.outs.Keys
    && (w.c.mapsDone ==> w'.c.mapsDone)
  }

  lemma GrowthKeepsWorker(job: Job, w: World, w': World, k: Worker)
    requires job.nReduce > 0 && Grows(w, w') && GoodWorker(job, w, k)
    ensures GoodWorker(job, w', k)
  {
  }

  lemma GrowthKeepsWorkers(job: Job, w: World, w': World, id: nat)
    requires Inv(job, w) && Grows(w, w')
    requires forall i :: i in w'.workers && i != id ==> i in w.workers && w'.workers[i] == w.workers[i]
    requires id in w'.workers ==> GoodWorker(job, w', w'.workers[id])
    ensures forall i :: i in w'.workers ==> GoodWorker(job, w', w'.workers[i])
  {
  }

  lemma GrowthKeepsSettled(job: Job, w: World, w': World)
    requires Settled(job, w) && Grows(w, w') && w'.c == w.c && w'.mail == w.mail
    ensures Settled(job, w')
  {
  }

  // A worker's own step: it need only look after its files and itself.
  lemma OwnStepKeeps(job: Job, w: World, w': World, id: nat)
    requires Inv(job, w) && Grows(w, w') && w'.c == w.c && w'.mail == w.mail && Stored(job, w')
    requires id in w'.workers && w'.workers == w.workers[id := w'.workers[id]]
    requires GoodWorker(job, w', w'.workers[id])
    ensures Inv(job, w')
  {
    GrowthKeepsSettled(job, w, w');
    GrowthKeepsWorkers(job, w, w', id);
  }

  lemma ShareGrows(job: Job, n: nat, r: nat)
    requires n < |job.files| && job.nReduce > 0
    ensures Share(job, n + 1, r) == Share(job, n, r) + Part(job, n, r)
  {
    BucketAppend(AllPairs(job, n), MapOutput(job, n), job.hash, job.nReduce, r);
  }

  // A reduce task is handed out only when every file it will read is complete.
  lemma InputsComplete(job: Job, w: World, m: nat, r: nat)
    requires Inv(job, w) && w.c.mapsDone && m < |job.files| && r < job.nReduce
    ensures (m, r) in w.parts && GoodPart(job, (m, r), w.parts[(m, r)])
  {
    assert w.c.maps[m].status == Success;
    assert Vouched(job, w.parts, w.outs, Message(MapTask, m));
  }

  lemma AskedKeeps(job: Job, w: World, w': World, clock: nat -> int, reply: Reply)
    requires Inv(job, w) && Asked(w, w', clock, reply)
    ensures Consistent(w'.c) && w'.c.files == job.files && |w'.c.reduces| == job.nReduce
    ensures Stored(job, w') && Settled(job, w') && Grows(w, w')
    ensures reply.Work? && reply.kind == MapTask ==> reply.id < |job.files|
    ensures reply.Work? && reply.kind == ReduceTask ==>
              w'.c.mapsDone && reply.id < job.nReduce && reply.files == ReduceInputs(|job.files|, reply.id)
    ensures reply == Exit ==> w.c.allDone
  {
    AssignKeepsConsistent(w.c, clock);
    AskedKeepsFiles(job, w, w', clock, reply);
  }

  // A request for work completes nothing and touches no file.
  lemma AskedKeepsFiles(job: Job, w: World, w': World, clock: nat -> int, reply: Reply)
    requires job.nReduce > 0 && Stored(job, w) && Settled(job, w) && Asked(w, w', clock, reply)
    ensures Stored(job, w') && Settled(job, w') && Grows(w, w')
  {
  }

  lemma ExecutionIsGood(job: Job, m: nat, kvs: seq<KV>, r: nat)
    requires job.nReduce > 0 && IsMapExecution(job, m, kvs) && r < job.nReduce
    ensures GoodPart(job, (m, r), Bucket(kvs, job.hash, job.nReduce, r))
  {
    SameBucket(kvs, MapOutput(job, m), job.hash, job.nReduce, r);
  }

  lemma BeginsIsGood(job: Job, w: World, reply: Reply, next: Worker)
    requires WellFormed(job) && Begins(job, reply, next)
    requires reply.Work? && reply.kind == ReduceTask ==>
               w.c.mapsDone && reply.id < job.nReduce && reply.files == ReduceInputs(|job.files|, reply.id)
    ensures GoodWorker(job, w, next)
  {
    if next.Mapping? {
      var kvs :| && IsMapExecution(job, next.m, kvs)
                 && next.buckets == seq(job.nReduce, r requires r >= 0 => Bucket(kvs, job.hash, job.nReduce, r));
      forall r: nat | r < job.nReduce ensures GoodPart(job, (next.m, r), next.buckets[r]) {
        ExecutionIsGood(job, next.m, kvs, r);
      }
    }
  }

  lemma AnsweredKeeps(job: Job, w: World, w': World, id: nat, clock: nat -> int, reply: Reply)
    requires Inv(job, w) && Asked(w, w', clock, reply)
    requires id in w'.workers && w'.workers == w.workers[id := w'.workers[id]] && Begins(job, reply, w'.workers[id])
    ensures Inv(job, w')
  {
    AskedKeeps(job, w, w', clock, reply);
    BeginsIsGood(job, w', reply, w'.workers[id]);
    GrowthKeepsWorkers(job, w, w', id);
  }

  lemma AskKeeps(job: Job, w: World, w': World, id: nat)
    requires Inv(job, w) && Ask(job, w, w', id)
    ensures Inv(job, w')
  {
    var clock: nat -> int, reply :| && Asked(w, w', clock, reply)
                                    && Begins(job, reply, w'.workers[id])
                                    && w'.workers == w.workers[id := w'.workers[id]];
    AnsweredKeeps(job, w, w', id, clock, reply);
  }

  lemma AskInVainKeeps(job: Job, w: World, w': World)
    requires Inv(job, w) && AskInVain(w, w')
    ensures Inv(job, w')
  {
    var clock: nat -> int, reply :| Asked(w, w', clock, reply) && w'.workers == w.workers;
    AskedKeeps(job, w, w', clock, reply);
    forall i | i in w'.workers ensures GoodWorker(job, w', w'.workers[i]) {
      GrowthKeepsWorker(job, w, w', w.workers[i]);
    }
  }

  lemma RenamedPartIsGood(job: Job, w: World, w': World, id: nat)
    requires job.nReduce > 0 && Stored(job, w) && RenamePart(w, w', id) && GoodWorker(job, w, w.workers[id])
    ensures Stored(job, w') && Grows(w, w') && GoodWorker(job, w', w'.workers[id])
  {
  }

  lemma RenamePartKeeps(job: Job, w: World, w': World, id: nat)
    requires Inv(job, w) && RenamePart(w, w', id)
    ensures Inv(job, w')
  {
    RenamedPartIsGood(job, w, w', id);
    OwnStepKeeps(job, w, w', id);
  }

  lemma LoadPartKeeps(job: Job, w: World, w': World, id: nat)
    requires Inv(job, w) && LoadPart(w, w', id)
    ensures Inv(job, w')
  {
    var k := w.workers[id];
    assert GoodWorker(job, w, k);
    InputsComplete(job, w, k.loaded, k.r);
    ShareGrows(job, k.loaded, k.r);
    GrowthKeepsWorkers(job, w, w', id);
  }

  lemma ReducedIsGood(job: Job, w: World, w': World, id: nat)
    requires WellFormed(job) && Reduce(job, w, w', id) && GoodWorker(job, w, w.workers[id])
    ensures GoodWorker(job, w', w'.workers[id])
  {
    var k := w.workers[id];
    var sorted, lines :| && IsSortOf(k.pairs, sorted) && IsOutput(sorted, job.reducef, lines)
                         && w' == w.(workers := w.workers[id := Writing(k.r, lines)]);
    OutputTransfers(sorted, Share(job, |job.files|, k.r), job.reducef, lines);
  }

  lemma ReduceKeeps(job: Job, w: World, w': World, id: nat)
    requires Inv(job, w) && Reduce(job, w, w', id)
    ensures Inv(job, w')
  {
    ReducedIsGood(job, w, w', id);
    OwnStepKeeps(job, w, w', id);
  }

  lemma RenameOutputKeeps(job: Job, w: World, w': World, id: nat)
    requires Inv(job, w) && RenameOutput(w, w', id)
    ensures Inv(job, w')
  {
    assert GoodWorker(job, w, w.workers[id]);
    OwnStepKeeps(job, w, w', id);
  }

  lemma QuietStepKeeps(job: Job, w: World, w': World, id: nat)
    requires Inv(job, w)
    requires StartWorker(w, w', id) || Crash(w, w', id) || FinishMap(w, w', id) ||
             LoadMissing(w, w', id) || Send(w, w', id)
    ensures Inv(job, w')
  {
    assert id in w.workers ==> GoodWorker(job, w, w.workers[id]);
    GrowthKeepsWorkers(job, w, w', id);
  }

  lemma DeliverKeeps(job: Job, w: World, w': World, x: Message)
    requires Inv(job, w) && Deliver(w, w', x)
    ensures Inv(job, w')
  {
    assert Vouched(job, w.parts, w.outs, x);
    CompleteKeepsConsistent(w.c, x.kind, x.id);
    forall i | i in w'.workers ensures GoodWorker(job, w', w'.workers[i]) {
      GrowthKeepsWorker(job, w, w', w.workers[i]);
    }
  }

  // Every step keeps the invariant.
  lemma NextKeeps(job: Job, w: World, w': World)
    requires Inv(job, w) && Next(job, w, w')
    ensures Inv(job, w')
  {
    if Tick(w, w') {
      forall i | i in w'.workers ensures GoodWorker(job, w', w'.workers[i]) {
        GrowthKeepsWorker(job, w, w', w.workers[i]);
      }
    } else if AskInVain(w, w') {
      AskInVainKeeps(job, w, w');
    } else if x :| Deliver(w, w', x) {
      DeliverKeeps(job, w, w', x);
    } else {
      var id :| WorkerStep(job, w, w', id);
      if Ask(job, w, w', id) {
        AskKeeps(job, w, w', id);
      } else if RenamePart(w, w', id) {
        RenamePartKeeps(job, w, w', id);
      } else if LoadPart(w, w', id) {
        LoadPartKeeps(job, w, w', id);
      } else if Reduce(job, w, w', id) {
        ReduceKeeps(job, w, w', id);
      } else if RenameOutput(w, w', id) {
        RenameOutputKeeps(job, w, w', id);
      } else {
        QuietStepKeeps(job, w, w', id);
      }
    }
  }

  lemma {:induction false} RunKeeps(job: Job, run: seq<World>, i: nat)
    requires WellFormed(job) && IsRun(job, run) && i < |run|
    ensures Inv(job, run[i])
  {
    if i == 0 {
      InitHolds(job, run[0]);
    } else {
      RunKeeps(job, run, i - 1);
      assert StepAt(job, run, i - 1);
      NextKeeps(job, run[i - 1], run[i]);
    }
  }

  // ---- Consequences ----

  // No worker ever finds an input file missing.
  lemma NoMissingInput(job: Job, run: seq<World>, i: nat, id: nat)
    requires WellFormed(job) && IsRun(job, run) && i < |run| && CanLoad(run[i], id)
    ensures NextInputPresent(run[i], id)
  {
    RunKeeps(job, run, i);
    var w := run[i];
    var k := w.workers[id];
    assert GoodWorker(job, w, k);
    InputsComplete(job, w, k.loaded, k.r);
  }

  // A reduce task is handed out only when every file it will read is there and complete.
  lemma ReduceIsReady(job: Job, run: seq<World>, i: nat, clock: nat -> int, reply: Reply, m: nat)
    requires WellFormed(job) && IsRun(job, run) && i < |run| - 1 && Asked(run[i], run[i + 1], clock, reply)
    requires reply.Work? && reply.kind == ReduceTask && m < |reply.files|
    ensures m < |job.files| && reply.files[m] == Intermediate(m, reply.id)
    ensures var parts := run[i].parts;
            (m, reply.id) in parts && GoodPart(job, (m, reply.id), parts[(m, reply.id)])
  {
    RunKeeps(job, run, i);
    AskedKeeps(job, run[i], run[i + 1], clock, reply);
    InputsComplete(job, run[i], m, reply.id);
  }

  // No completion message names a task that does not exist, so the coordinator never dies of one.
  lemma NoFatalCompletion(job: Job, run: seq<World>, i: nat, x: Message)
    requires WellFormed(job) && IsRun(job, run) && i < |run| && x in run[i].mail
    ensures x.id < if x.kind == MapTask then |run[i].c.maps| else |run[i].c.reduces|
  {
    RunKeeps(job, run, i);
    assert Vouched(job, run[i].parts, run[i].outs, x);
  }

  // Once a job is done every output file exists.
  lemma DoneMeansWritten(job: Job, w: World, r: nat)
    requires Inv(job, w) && w.c.allDone && r < job.nReduce
    ensures r in w.outs && GoodOutput(job, r, w.outs[r])
  {
    assert w.c.reduces[r].status == Success;
    assert Vouched(job, w.parts, w.outs, Message(ReduceTask, r));
  }

  // A worker is told to exit only when everything has been written.
  lemma ExitMeansWritten(job: Job, run: seq<World>, i: nat, clock: nat -> int, r: nat)
    requires WellFormed(job) && IsRun(job, run) && i < |run| - 1 && Asked(run[i], run[i + 1], clock, Exit)
    requires r < job.nReduce
    ensures r in run[i].outs && GoodOutput(job, r, run[i].outs[r])
  {
    RunKeeps(job, run, i);
    AskedKeeps(job, run[i], run[i + 1], clock, Exit);
    DoneMeansWritten(job, run[i], r);
  }

  // In every run a request is answered with Exit exactly when the job is done, and a worker goes away on
  // no other answer.
  lemma ExitExactlyWhenDone(job: Job, run: seq<World>, i: nat, clock: nat -> int, reply: Reply)
    requires WellFormed(job) && IsRun(job, run) && i < |run| - 1 && Asked(run[i], run[i + 1], clock, reply)
    ensures reply == Exit <==> run[i].c.allDone
    ensures Begins(job, reply, Gone) <==> reply == Exit
    ensures Begins(job, reply, Idle) <==> reply == Wait
  {
    RunKeeps(job, run, i);
    RepliesExactly(run[i].c, clock);
  }

  lemma FilesStay(job: Job, w: World, w': World)
    requires Next(job, w, w')
    ensures w.parts.Keys <= w'.parts.Keys && w.outs.Keys <= w'.outs.Keys
  {
  }

  // An output file, once there, never changes: a late or repeated execution rewrites the same lines.
  lemma OutputIsFinal(job: Job, w: World, w': World, r: nat)
    requires Inv(job, w) && Next(job, w, w') && r in w.outs
    ensures r in w'.outs && w'.outs[r] == w.outs[r]
  {
    NextKeeps(job, w, w');
    FilesStay(job, w, w');
    OutputIgnoresOrder(Share(job, |job.files|, r), Share(job, |job.files|, r), job.reducef, w'.outs[r], w.outs[r]);
  }

  ghost predicate SomeAsked(w: World, w': World)
  {
    exists clock: nat -> int, reply :: Asked(w, w', clock, reply)
  }

  // The coordinator is touched by requests for work and by deliveries only.
  lemma CoordinatorSteps(job: Job, w: World, w': World)
    requires Next(job, w, w')
    ensures || SomeAsked(w, w')
            || (w'.history == w.history && (w'.c == w.c || exists x :: Deliver(w, w', x)))
  {
    if id :| WorkerStep(job, w, w', id) {
      WorkerStepSteps(job, w, w', id);
    }
  }

  lemma WorkerStepSteps(job: Job, w: World, w': World, id: nat)
    requires WorkerStep(job, w, w', id)
    ensures SomeAsked(w, w') || (w'.history == w.history && w'.c == w.c)
  {
  }

  // Finished tasks and raised flags stay so.
  lemma StepAdvances(job: Job, w: World, w': World)
    requires Next(job, w, w')
    ensures Advanced(w.c, w'.c)
  {
    CoordinatorSteps(job, w, w');
    if SomeAsked(w, w') {
      var clock: nat -> int, reply :| Asked(w, w', clock, reply);
      AssignAdvances(w.c, clock);
    } else if x :| Deliver(w, w', x) {
      CompleteAdvances(w.c, x.kind, x.id);
    }
  }

  // Nothing that has been achieved is ever undone: completions, flags and output files.
  ghost predicate NothingUndone(w: World, w': World)
  {
    Advanced(w.c, w'.c) && forall r :: r in w.outs ==> r in w'.outs && w'.outs[r] == w.outs[r]
  }

  lemma StepUndoesNothing(job: Job, run: seq<World>, i: nat)
    requires WellFormed(job) && IsRun(job, run) && i < |run| - 1
    ensures NothingUndone(run[i], run[i + 1])
  {
    var w, w' := run[i], run[i + 1];
    RunKeeps(job, run, i);
    assert StepAt(job, run, i);
    StepAdvances(job, w, w');
    forall r | r in w.outs ensures r in w'.outs && w'.outs[r] == w.outs[r] {
      OutputIsFinal(job, w, w', r);
    }
  }

  lemma UndoneNothingTwice(a: World, b: World, c: World)
    requires NothingUndone(a, b) && NothingUndone(b, c)
    ensures NothingUndone(a, c)
  {
  }

  lemma {:induction false} RunUndoesNothing(job: Job, run: seq<World>, i: nat, j: nat)
    requires WellFormed(job) && IsRun(job, run) && i <= j < |run|
    ensures NothingUndone(run[i], run[j])
  {
    if i < j {
      RunUndoesNothing(job, run, i, j - 1);
      StepUndoesNothing(job, run, j - 1);
      UndoneNothingTwice(run[i], run[j - 1], run[j]);
    }
  }

  // Without input files the job never finishes: the map flag is raised only by a completion.
  lemma NoFilesNeverDone(job: Job, run: seq<World>, i: nat)
    requires WellFormed(job) && IsRun(job, run) && i < |run| && job.files == []
    ensures !run[i].c.allDone
  {
    RunKeeps(job, run, i);
    assert Inv(job, run[i]) && run[i].c.maps == [] && !run[i].c.mapsDone;
  }

  // ---- Refinement of the sequential program ----

  // mrsequential: map every file (each execution in any order), sort in any way, reduce.
  ghost predicate IsSequentialOutput(job: Job, lines: seq<Line>)
  {
    exists pairs, sorted :: && multiset(pairs) == multiset(AllPairs(job, |job.files|))
                            && IsSortOf(pairs, sorted) && IsOutput(sorted, job.reducef, lines)
  }

  // The sequential program, with the sort it calls as a parameter.
  method RunSequential(job: Job, sort: seq<KV> -> seq<KV>) returns (lines: seq<Line>)
    requires forall s :: IsSortOf(s, sort(s))
    ensures IsSequentialOutput(job, lines)
  {
    var pairs := [];
    for m := 0 to |job.files|
      invariant pairs == AllPairs(job, m)
    {
      pairs := pairs + job.mapf(job.files[m], job.contents(job.files[m]));
    }
    assert IsSortOf(pairs, sort(pairs));
    lines := SequentialReduce(sort(pairs), job.reducef);
  }

  // The lines of mr-out-0 up to mr-out-(n-1), one file after the other.
  ghost function Gathered(outs: map<nat, seq<Line>>, n: nat): seq<Line>
    requires forall r: nat :: r < n ==> r in outs
  {
    if n == 0 then [] else Gathered(outs, n - 1) + outs[n - 1]
  }

  ghost function Once(b: bool): nat
  {
    if b then 1 else 0
  }

  lemma {:induction false} OrderedCounts(lines: seq<Line>, l: Line)
    requires StrictlyOrdered(lines)
    ensures multiset(lines)[l] == Once(l in lines)
  {
    if lines != [] {
      var n := |lines| - 1;
      OrderedCounts(lines[..n], l);
      DropLast(lines, l);
      assert lines == lines[..n] + [lines[n]];
    }
  }

  // The lines of the whole job, and the reduce task each belongs to.
  ghost predicate JobLine(job: Job, l: Line)
  {
    IsLine(AllPairs(job, |job.files|), job.reducef, l)
  }

  function Home(job: Job, l: Line): nat
    requires job.nReduce > 0
  {
    job.hash(l.key) % job.nReduce
  }

  // A line of the whole job is in the output of its key's reduce task and in no other.
  lemma LineInOneOutput(job: Job, r: nat, lines: seq<Line>, l: Line)
    requires job.nReduce > 0 && GoodOutput(job, r, lines)
    ensures multiset(lines)[l] ==
            Once(Home(job, l) == r && JobLine(job, l))
  {
    var all := AllPairs(job, |job.files|);
    OrderedCounts(lines, l);
    OutputHasExactlyTheLines(Share(job, |job.files|, r), job.reducef, lines, l);
    BucketValues(all, job.hash, job.nReduce, r, l.key);
    BucketKeys(all, job.hash, job.nReduce, r, l.key);
  }

  // A line that is once in file h, or nowhere, is once among the first n files if h is one of them.
  lemma {:induction false} GatheredCounts(outs: map<nat, seq<Line>>, n: nat, l: Line, h: nat, once: bool)
    requires forall r: nat :: r < n ==> r in outs && multiset(outs[r])[l] == Once(h == r && once)
    ensures multiset(Gathered(outs, n))[l] == Once(h < n && once)
  {
    if n > 0 {
      GatheredCounts(outs, n - 1, l, h, once);
    }
  }

  // A line of the whole job is in the sequential output exactly once.
  lemma LineInSequential(job: Job, lines: seq<Line>, l: Line)
    requires WellFormed(job) && IsSequentialOutput(job, lines)
    ensures multiset(lines)[l] == Once(JobLine(job, l))
  {
    var all := AllPairs(job, |job.files|);
    var pairs, sorted :| && multiset(pairs) == multiset(all)
                         && IsSortOf(pairs, sorted) && IsOutput(sorted, job.reducef, lines);
    OrderedCounts(lines, l);
    OutputHasExactlyTheLines(sorted, job.reducef, lines, l);
    SameLine(sorted, all, job.reducef, l);
  }

  // Main result: in every run, whatever crashes, delays, duplicates and re-executions occur, once
  // Done() holds the lines of all output files are, as a multiset, those of the sequential program.
  lemma DoneRefinesSequential(job: Job, run: seq<World>, i: nat, lines: seq<Line>)
    requires WellFormed(job) && IsRun(job, run) && i < |run| && run[i].c.allDone
    requires IsSequentialOutput(job, lines)
    ensures forall r: nat :: r < job.nReduce ==> r in run[i].outs
    ensures multiset(Gathered(run[i].outs, job.nReduce)) == multiset(lines)
  {
    RunKeeps(job, run, i);
    forall r: nat | r < job.nReduce ensures r in run[i].outs && GoodOutput(job, r, run[i].outs[r]) {
      DoneMeansWritten(job, run[i], r);
    }
    var outs := run[i].outs;
    forall l ensures multiset(Gathered(outs, job.nReduce))[l] == multiset(lines)[l] {
      forall r: nat | r < job.nReduce ensures multiset(outs[r])[l] == Once(Home(job, l) == r && JobLine(job, l)) {
        LineInOneOutput(job, r, outs[r], l);
      }
      GatheredCounts(outs, job.nReduce, l, Home(job, l), JobLine(job, l));
      LineInSequential(job, lines, l);
    }
  }

  // ---- What the outputs mean, in terms of the map and reduce functions alone ----

  // How often the first n files emit the pair kv.
  ghost function Emitted(job: Job, n: nat, kv: KV): nat
    requires n <= |job.files|
  {
    if n == 0 then 0
    else Emitted(job, n - 1, kv) + multiset(job.mapf(job.files[n - 1], job.contents(job.files[n - 1])))[kv]
  }

  // The values the first n files emit for a key, file by file.
  ghost function EmittedValues(job: Job, n: nat, k: string): seq<string>
    requires n <= |job.files|
  {
    if n == 0 then []
    else EmittedValues(job, n - 1, k) + Values(job.mapf(job.files[n - 1], job.contents(job.files[n - 1])), k)
  }

  lemma {:induction false} PairsAreEmitted(job: Job, n: nat, kv: KV)
    requires n <= |job.files|
    ensures multiset(AllPairs(job, n))[kv] == Emitted(job, n, kv)
  {
    if n > 0 {
      PairsAreEmitted(job, n - 1, kv);
    }
  }

  lemma {:induction false} ValuesAreEmitted(job: Job, n: nat, k: string)
    requires n <= |job.files|
    ensures Values(AllPairs(job, n), k) == EmittedValues(job, n, k)
  {
    if n > 0 {
      ValuesAreEmitted(job, n - 1, k);
      ValuesAppend(AllPairs(job, n - 1), MapOutput(job, n - 1), k);
    }
  }

  lemma {:induction false} KeysAreEmitted(job: Job, n: nat, k: string)
    requires n <= |job.files|
    ensures HasKey(AllPairs(job, n), k) <==>
            exists m: nat :: m < n && HasKey(job.mapf(job.files[m], job.contents(job.files[m])), k)
  {
    if n > 0 {
      KeysAreEmitted(job, n - 1, k);
      KeysAppend(AllPairs(job, n - 1), MapOutput(job, n - 1), k);
      assert HasKey(MapOutput(job, n - 1), k) <==>
             HasKey(job.mapf(job.files[n - 1], job.contents(job.files[n - 1])), k);
    }
  }

  // Some file emits the key of the line, and its text is the reduction of what all files emit for it.
  ghost predicate IsJobLine(job: Job, l: Line)
  {
    && (exists m: nat :: m < |job.files| && HasKey(job.mapf(job.files[m], job.contents(job.files[m])), l.key))
    && l.output == job.reducef(l.key, EmittedValues(job, |job.files|, l.key))
  }

  lemma JobLineMeans(job: Job, l: Line)
    ensures JobLine(job, l) <==> IsJobLine(job, l)
  {
    KeysAreEmitted(job, |job.files|, l.key);
    ValuesAreEmitted(job, |job.files|, l.key);
  }

  // What the sequential program writes: each line of the job once, and nothing else.
  lemma SequentialMeans(job: Job, lines: seq<Line>, l: Line)
    requires WellFormed(job) && IsSequentialOutput(job, lines)
    ensures multiset(lines)[l] == if IsJobLine(job, l) then 1 else 0
  {
    LineInSequential(job, lines, l);
    JobLineMeans(job, l);
  }

  // Main result: in every run, once Done() holds, every line of the job is in the output file its key
  // hashes to, once, and nothing else is in any output file.
  lemma DoneMeans(job: Job, run: seq<World>, i: nat, r: nat, l: Line)
    requires WellFormed(job) && IsRun(job, run) && i < |run| && run[i].c.allDone && r < job.nReduce
    ensures r in run[i].outs
    ensures multiset(run[i].outs[r])[l] == if IsJobLine(job, l) && job.hash(l.key) % job.nReduce == r then 1 else 0
  {
    RunKeeps(job, run, i);
    DoneMeansWritten(job, run[i], r);
    LineInOneOutput(job, r, run[i].outs[r], l);
    JobLineMeans(job, l);
  }
}
