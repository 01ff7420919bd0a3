// The MapReduce coordinator: the task tables, assignment with a ten-second timeout, and completion.
module Coordination {

  // In milliseconds.
  const TIMEOUT := 10_000

  datatype TaskStatus = Success | Todo | Assigned

  datatype Task = Task(status: TaskStatus, stamp: int)

  datatype FileName = Input(name: string) | Intermediate(m: nat, r: nat)

  datatype TaskKind = MapTask | ReduceTask

  datatype Reply =
    | Work(kind: TaskKind, id: nat, files: seq<FileName>)
    | Exit
    | Wait

  datatype State = State(
    files: seq<string>, maps: seq<Task>, reduces: seq<Task>,
    mapCount: nat, reduceCount: nat, mapsDone: bool, reducesDone: bool, allDone: bool)

  function Fresh(files: seq<string>, nReduce: nat): State
  {
    State(files, seq(|files|, i => Task(Todo, 0)), seq(nReduce, i => Task(Todo, 0)), 0, 0, false, false, false)
  }

  function ReduceInputs(nMap: nat, r: nat): seq<FileName>
  {
    seq(nMap, (m: nat) => Intermediate(m, r))
  }

  // Readings of the clock during one call, in the order they are taken.
  ghost predicate Advances(clock: nat -> int)
  {
    forall i, j :: 0 <= i <= j ==> clock(i) <= clock(j)
  }

  predicate Free(t: Task, now: int)
  {
    t.status == Todo || (t.status == Assigned && now - t.stamp > TIMEOUT)
  }

  // The first task, from i on, that may be handed out; |tasks| if there is none.
  function FirstFree(tasks: seq<Task>, clock: nat -> int, i: nat): (k: nat)
    requires i <= |tasks|
    ensures i <= k <= |tasks|
    ensures k < |tasks| ==> Free(tasks[k], clock(k))
    ensures forall j :: i <= j < k ==> !Free(tasks[j], clock(j))
    decreases |tasks| - i
  {
    if i == |tasks| || Free(tasks[i], clock(i)) then i else FirstFree(tasks, clock, i + 1)
  }

  function HandOut(tasks: seq<Task>, k: nat, clock: nat -> int): seq<Task>
    requires k < |tasks|
  {
    tasks[k := Task(Assigned, clock(k + 1))]
  }

  // Map tasks first, then reduce tasks, then Exit.
  function Assign(c: State, clock: nat -> int): (State, Reply)
    requires |c.maps| == |c.files|
  {
    var m := FirstFree(c.maps, clock, 0);
    var r := FirstFree(c.reduces, clock, 0);
    if !c.mapsDone then
      if m < |c.maps| then (c.(maps := HandOut(c.maps, m, clock)), Work(MapTask, m, [Input(c.files[m])]))
      else (c, Wait)
    else if !c.reducesDone then
      if r < |c.reduces| then
        (c.(reduces := HandOut(c.reduces, r, clock)), Work(ReduceTask, r, ReduceInputs(|c.files|, r)))
      else (c, Wait)
    else if c.allDone then (c, Exit)
    else (c, Wait)
  }

  // A completion counts once per task; the last one of a kind sets the flags.
  function Complete(c: State, kind: TaskKind, id: nat): State
    requires id < if kind == MapTask then |c.maps| else |c.reduces|
  {
    match kind
    case MapTask =>
      var count := if c.maps[id].status != Success then c.mapCount + 1 else c.mapCount;
      c.(maps := c.maps[id := c.maps[id].(status := Success)], mapCount := count,
         mapsDone := c.mapsDone || count == |c.maps|)
    case ReduceTask =>
      var count := if c.reduces[id].status != Success then c.reduceCount + 1 else c.reduceCount;
      var last := count == |c.reduces|;
      c.(reduces := c.reduces[id := c.reduces[id].(status := Success)], reduceCount := count,
         reducesDone := c.reducesDone || last, allDone := c.allDone || last)
  }

  // ---- The counters ----

  function Successes(tasks: seq<Task>): (n: nat)
    ensures n <= |tasks|
  {
    if tasks == [] then 0
    else Successes(tasks[..|tasks| - 1]) + if tasks[|tasks| - 1].status == Success then 1 else 0
  }

  lemma {:induction false} SuccessesUpdate(tasks: seq<Task>, k: nat, t: Task)
    requires k < |tasks|
    ensures Successes(tasks[k := t]) == Successes(tasks)
            - (if tasks[k].status == Success then 1 else 0) + (if t.status == Success then 1 else 0)
  {
    var n := |tasks| - 1;
    if k < n {
      SuccessesUpdate(tasks[..n], k, t);
      assert tasks[k := t][..n] == tasks[..n][k := t];
    } else {
      assert tasks[k := t][..n] == tasks[..n];
    }
  }

  lemma {:induction false} AllSuccess(tasks: seq<Task>)
    ensures Successes(tasks) == |tasks| <==> forall i :: 0 <= i < |tasks| ==> tasks[i].status == Success
  {
    if tasks != [] {
      var n := |tasks| - 1;
      AllSuccess(tasks[..n]);
      assert tasks == tasks[..n] + [tasks[n]];
    }
  }

  // What every call keeps: counters equal the number of completed tasks, a flag is up exactly when
  // its table is complete, and no reduce task starts before the last map task is done.
  ghost predicate Consistent(c: State)
  {
    && |c.maps| == |c.files|
    && c.mapCount == Successes(c.maps)
    && c.reduceCount == Successes(c.reduces)
    && (c.mapsDone <==> c.maps != [] && forall i :: 0 <= i < |c.maps| ==> c.maps[i].status == Success)
    && (c.reducesDone <==> c.reduces != [] && forall i :: 0 <= i < |c.reduces| ==> c.reduces[i].status == Success)
    && c.allDone == c.reducesDone
    && (!c.mapsDone ==> forall i :: 0 <= i < |c.reduces| ==> c.reduces[i].status == Todo)
  }

  lemma {:induction false} FreshIsConsistent(files: seq<string>, nReduce: nat)
    ensures Consistent(Fresh(files, nReduce))
  {
    NoneDone(Fresh(files, nReduce).maps);
    NoneDone(Fresh(files, nReduce).reduces);
  }

  lemma {:induction false} NoneDone(tasks: seq<Task>)
    requires forall i :: 0 <= i < |tasks| ==> tasks[i].status == Todo
    ensures Successes(tasks) == 0
  {
    if tasks != [] {
      NoneDone(tasks[..|tasks| - 1]);
    }
  }

  lemma AssignKeepsConsistent(c: State, clock: nat -> int)
    requires Consistent(c)
    ensures Consistent(Assign(c, clock).0)
  {
    var m := FirstFree(c.maps, clock, 0);
    var r := FirstFree(c.reduces, clock, 0);
    if !c.mapsDone {
      if m < |c.maps| {
        SuccessesUpdate(c.maps, m, Task(Assigned, clock(m + 1)));
        var after := HandOut(c.maps, m, clock);
        assert after[m].status == Assigned;
      }
    } else if !c.reducesDone && r < |c.reduces| {
      SuccessesUpdate(c.reduces, r, Task(Assigned, clock(r + 1)));
      var after := HandOut(c.reduces, r, clock);
      assert after[r].status == Assigned;
    }
  }

  lemma CompleteKeepsConsistent(c: State, kind: TaskKind, id: nat)
    requires Consistent(c)
    requires id < if kind == MapTask then |c.maps| else |c.reduces|
    requires kind == ReduceTask ==> c.mapsDone
    ensures Consistent(Complete(c, kind, id))
  {
    var after := Complete(c, kind, id);
    match kind
    case MapTask =>
      SuccessesUpdate(c.maps, id, c.maps[id].(status := Success));
      AllSuccess(c.maps);
      AllSuccess(after.maps);
    case ReduceTask =>
      SuccessesUpdate(c.reduces, id, c.reduces[id].(status := Success));
      AllSuccess(c.reduces);
      AllSuccess(after.reduces);
  }

  // What a request is answered: Exit exactly when everything is done, Wait exactly when it is not and no
  // task of the current kind is todo or overdue.
  lemma RepliesExactly(c: State, clock: nat -> int)
    requires Consistent(c)
    ensures Assign(c, clock).1 == Exit <==> c.allDone
    ensures Assign(c, clock).1 == Wait <==>
            !c.allDone &&
            var tasks := if c.mapsDone then c.reduces else c.maps;
            forall i: nat :: i < |tasks| ==>
              tasks[i].status == Success || (tasks[i].status == Assigned && clock(i) - tasks[i].stamp <= 10_000)
    ensures var reply := Assign(c, clock).1; reply.Work? ==> (reply.kind == ReduceTask <==> c.mapsDone)
    ensures var reply := Assign(c, clock).1;
            reply.Work? && reply.kind == MapTask ==> reply.id < |c.files| && reply.files == [Input(c.files[reply.id])]
    ensures var reply := Assign(c, clock).1;
            reply.Work? && reply.kind == ReduceTask ==>
              && |reply.files| == |c.files|
              && forall m: nat :: m < |c.files| ==> reply.files[m] == Intermediate(m, reply.id)
  {
    var tasks := if c.mapsDone then c.reduces else c.maps;
    var k := FirstFree(tasks, clock, 0);
    assert k < |tasks| ==> Free(tasks[k], clock(k));
    assert c.allDone ==> c.reduces[0].status == Success;
  }

  // A finished task stays finished, and flags stay up.
  ghost predicate Advanced(c: State, d: State)
  {
    && d.files == c.files && |d.maps| == |c.maps| && |d.reduces| == |c.reduces|
    && (forall i :: 0 <= i < |c.maps| && c.maps[i].status == Success ==> d.maps[i].status == Success)
    && (forall i :: 0 <= i < |c.reduces| && c.reduces[i].status == Success ==> d.reduces[i].status == Success)
    && (c.mapsDone ==> d.mapsDone) && (c.allDone ==> d.allDone)
  }

  lemma AssignAdvances(c: State, clock: nat -> int)
    requires |c.maps| == |c.files|
    ensures Advanced(c, Assign(c, clock).0)
  {
  }

  lemma CompleteAdvances(c: State, kind: TaskKind, id: nat)
    requires id < if kind == MapTask then |c.maps| else |c.reduces|
    ensures Advanced(c, Complete(c, kind, id))
  {
  }

  // ---- The server object ----

  class Coordinator {
    const files: seq<string>
    const mapTasks: array<Task>
    const reduceTasks: array<Task>
    var mapTaskDoneNum: nat
    var reduceTaskDoneNum: nat
    var mapTasksDone: bool
    var reduceTasksDone: bool
    var allDone: bool

    ghost predicate Valid()
    {
      mapTasks != reduceTasks && mapTasks.Length == |files|
    }

    ghost function View(): State
      reads this, mapTasks, reduceTasks
    {
      State(files, mapTasks[..], reduceTasks[..], mapTaskDoneNum, reduceTaskDoneNum,
            mapTasksDone, reduceTasksDone, allDone)
    }

    // The loops that write Todo matter: the zero value of a status is Success.
    constructor (files: seq<string>, nReduce: nat)
      ensures Valid() && fresh(mapTasks) && fresh(reduceTasks)
      ensures View() == Fresh(files, nReduce)
    {
      this.files := files;
      mapTasks := new Task[|files|](i => Task(Success, 0));
      reduceTasks := new Task[nReduce](i => Task(Success, 0));
      mapTaskDoneNum, reduceTaskDoneNum := 0, 0;
      mapTasksDone, reduceTasksDone, allDone := false, false, false;
      new;
      for i := 0 to |files|
        invariant forall k :: 0 <= k < i ==> mapTasks[k] == Task(Todo, 0)
        modifies mapTasks
      {
        mapTasks[i] := Task(Todo, 0);
      }
      for i := 0 to nReduce
        invariant forall k :: 0 <= k < i ==> reduceTasks[k] == Task(Todo, 0)
        modifies reduceTasks
      {
        reduceTasks[i] := Task(Todo, 0);
      }
    }

    // The scan shared by both tables: hand out the first free task, if any.
    static method Scan(tasks: array<Task>, clock: nat -> int) returns (k: nat)
      modifies tasks
      ensures k == FirstFree(old(tasks[..]), clock, 0)
      ensures tasks[..] == if k < tasks.Length then HandOut(old(tasks[..]), k, clock) else old(tasks[..])
    {
      k := 0;
      while k < tasks.Length
        invariant k <= tasks.Length && tasks[..] == old(tasks[..])
        invariant FirstFree(tasks[..], clock, 0) == FirstFree(tasks[..], clock, k)
      {
        if Free(tasks[k], clock(k)) {
          tasks[k] := Task(Assigned, clock(k + 1));
          return;
        }
        k := k + 1;
      }
    }

    method AssignTask(clock: nat -> int) returns (reply: Reply)
      requires Valid()
      modifies mapTasks, reduceTasks
      ensures (View(), reply) == Assign(old(View()), clock)
    {
      if !mapTasksDone {
        var m := Scan(mapTasks, clock);
        if m < mapTasks.Length {
          return Work(MapTask, m, [Input(files[m])]);
        }
        return Wait;
      }
      if !reduceTasksDone {
        var r := Scan(reduceTasks, clock);
        if r < reduceTasks.Length {
          return Work(ReduceTask, r, ReduceInputs(|files|, r));
        }
        return Wait;
      }
      if allDone {
        return Exit;
      }
      return Wait;
    }

    // False stands for the fatal error on a task number out of range.
    method NotifyComplete(kind: TaskKind, id: nat) returns (ok: bool)
      requires Valid()
      modifies this, mapTasks, reduceTasks
      ensures ok <==> id < if kind == MapTask then |old(View()).maps| else |old(View()).reduces|
      ensures View() == if ok then Complete(old(View()), kind, id) else old(View())
    {
      match kind
      case MapTask =>
        if id >= mapTasks.Length {
          return false;
        }
        if mapTasks[id].status != Success {
          mapTasks[id] := mapTasks[id].(status := Success);
          mapTaskDoneNum := mapTaskDoneNum + 1;
        }
        if mapTaskDoneNum == mapTasks.Length {
          mapTasksDone := true;
        }
        return true;
      case ReduceTask =>
        if id >= reduceTasks.Length {
          return false;
        }
        if reduceTasks[id].status != Success {
          reduceTasks[id] := reduceTasks[id].(status := Success);
          reduceTaskDoneNum := reduceTaskDoneNum + 1;
        }
        if reduceTaskDoneNum == reduceTasks.Length {
          reduceTasksDone := true;
          allDone := true;
        }
        return true;
    }
  }
}
