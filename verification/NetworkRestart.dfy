// Why a server must be shut down before it is started again: a start is safe exactly when it is.
module NetworkRestart {
  import opened Network
  import opened Naming

  // ---- Continuations ----

  ghost predicate IsPath(path: seq<World>)
  {
    path != [] && forall i: nat :: i < |path| - 1 ==> StepAt(path, i)
  }

  ghost function Last(path: seq<World>): World
    requires path != []
  {
    path[|path| - 1]
  }

  ghost predicate Continues(path: seq<World>, longer: seq<World>)
  {
    IsPath(longer) && path <= longer
  }

  lemma OneMore(path: seq<World>, w: World)
    requires IsPath(path) && Next(Last(path), w)
    ensures Continues(path, path + [w])
  {
    var longer := path + [w];
    forall i: nat | i < |longer| - 1 ensures StepAt(longer, i) {
      if i < |path| - 1 {
        assert StepAt(path, i);
      }
    }
  }

  lemma {:induction false} PathKeeps(path: seq<World>, i: nat)
    requires IsPath(path) && Inv(path[0]) && i < |path|
    ensures Inv(path[i])
  {
    if i > 0 {
      PathKeeps(path, i - 1);
      assert StepAt(path, i - 1);
      NextKeeps(path[i - 1], path[i]);
    }
  }

  // ---- A call that succeeds ----

  lemma RequestMoves(path: seq<World>, r: Rid, q: Request) returns (longer: seq<World>)
    requires IsPath(path) && r in Last(path).requests
    requires || Moves(Last(path).ends, Last(path).lab.servers, Last(path).requests[r], q)
             || (Last(path).requests[r].handler == Running && q == Last(path).requests[r].(handler := Returned))
    ensures Continues(path, longer) && Last(longer) == Last(path).(requests := Last(path).requests[r := q])
  {
    var w := Last(path);
    var w' := w.(requests := w.requests[r := q]);
    assert RequestStep(w, w', r);
    OneMore(path, w');
    longer := path + [w'];
  }

  // A new request to a registered server, up to the start of its handler.
  lemma CallArrives(path: seq<World>, n: Name) returns (longer: seq<World>, r: Rid)
    requires IsPath(path) && n in Last(path).lab.servers
    ensures Continues(path, longer) && Last(longer).lab == Last(path).lab && r in Last(longer).requests
    ensures InHandler(Last(longer), r, n, Last(path).lab.servers[n])
  {
    var w := Last(path);
    var w1 := w.(ends := Ends(w.ends.enabled[0 := true], w.ends.connections[0 := n]));
    OneMore(path, w1);
    r := FreshId(w.requests.Keys);
    var q := Request(0, None, Queued, NotStarted, 0, 0, {});
    var w2 := w1.(requests := w1.requests[r := q]);
    assert Send(w1, w2, r, 0);
    OneMore(path + [w1], w2);
    longer := path + [w1] + [w2];
    var q1 := q.(target := Some((n, w.lab.servers[n])), stage := Found);
    longer := RequestMoves(longer, r, q1);
    longer := RequestMoves(longer, r, q1.(stage := Waiting, handler := Running, ran := 1));
  }

  ghost predicate InHandler(w: World, r: Rid, n: Name, i: Inst)
  {
    && r in w.requests && w.requests[r].stage == Waiting && w.requests[r].handler == Running
    && w.requests[r].target == Some((n, i))
    && !ServerDead(w.ends, w.lab.servers, w.requests[r].end, n, i)
  }

  function Saved(l: Lab, o: Pid, x: Content): Lab
    requires o in l.persisters
  {
    l.(persisters := l.persisters[o := l.persisters[o].(saves := l.persisters[o].saves + [x])])
  }

  // The handler of request r, which ran on instance i of server n, made save number s; true was answered.
  ghost predicate Acknowledged(w: World, r: Rid, n: Name, i: Inst, s: nat)
  {
    && r in w.requests && w.requests[r].stage == Answered(true)
    && w.requests[r].target == Some((n, i)) && s in w.requests[r].saves
  }

  // From there the handler may save x and return, and the reply may pass the final check.
  lemma CallCompletes(path: seq<World>, r: Rid, n: Name, i: Inst, x: Content) returns (longer: seq<World>)
    requires IsPath(path) && InHandler(Last(path), r, n, i)
    requires i in Last(path).lab.instances && Last(path).lab.instances[i].pid in Last(path).lab.persisters
    ensures var l, o := Last(path).lab, Last(path).lab.instances[i].pid;
            && Continues(path, longer) && Last(longer).lab == Saved(l, o, x)
            && Acknowledged(Last(longer), r, n, i, |l.persisters[o].saves|)
  {
    var w := Last(path);
    var o := w.lab.instances[i].pid;
    var q := w.requests[r].(saves := w.requests[r].saves + {|w.lab.persisters[o].saves|});
    var w1 := w.(lab := Saved(w.lab, o, x), requests := w.requests[r := q]);
    assert HandlerSave(w, w1, r, x);
    OneMore(path, w1);
    longer := RequestMoves(path + [w1], r, q.(handler := Returned));
    longer := RequestMoves(longer, r, q.(handler := Returned, stage := GotReply));
    longer := RequestMoves(longer, r, q.(handler := Returned, stage := Passed));
    longer := RequestMoves(longer, r, q.(handler := Returned, stage := Answered(true), replies := q.replies + 1));
  }

  lemma CallSucceeds(path: seq<World>, n: Name, x: Content) returns (longer: seq<World>, r: Rid)
    requires IsPath(path) && n in Last(path).lab.servers && Last(path).lab.servers[n] in Last(path).lab.instances
    requires Last(path).lab.instances[Last(path).lab.servers[n]].pid in Last(path).lab.persisters
    ensures var l, i := Last(path).lab, Last(path).lab.servers[n];
            var o := l.instances[i].pid;
            && Continues(path, longer) && Last(longer).lab == Saved(l, o, x)
            && Acknowledged(Last(longer), r, n, i, |l.persisters[o].saves|)
  {
    longer, r := CallArrives(path, n);
    longer := CallCompletes(longer, r, n, Last(path).lab.servers[n], x);
  }

  // ---- A call that fails ----

  // The end of the request is disabled, or its instance is no longer the registered one.
  ghost predicate CutOff(w: World, q: Request)
  {
    || q.end !in w.ends.enabled || !w.ends.enabled[q.end]
    || q.target.None? || q.target.value.0 !in w.lab.servers || w.lab.servers[q.target.value.0] != q.target.value.1
  }

  // A request that is bound to fail.
  lemma FailedIsAnswered(path: seq<World>, r: Rid) returns (longer: seq<World>)
    requires IsPath(path) && r in Last(path).requests && Last(path).requests[r].stage == Failed
    ensures var q := Last(path).requests[r];
            && Continues(path, longer)
            && Last(longer) == Last(path).(requests := Last(path).requests[r := q.(stage := Answered(false),
                                                                                replies := q.replies + 1)])
  {
    var q := Last(path).requests[r];
    longer := RequestMoves(path, r, q.(stage := Answered(false), replies := q.replies + 1));
  }

  // A request whose handler has not been started may be lost on the way.
  lemma RequestMayBeLost(path: seq<World>, r: Rid) returns (longer: seq<World>)
    requires IsPath(path) && r in Last(path).requests && Last(path).requests[r].stage in {Queued, Found}
    ensures Continues(path, longer) && Last(longer).lab == Last(path).lab && r in Last(longer).requests
    ensures var q, q' := Last(path).requests[r], Last(longer).requests[r];
            q'.stage == Answered(false) && q'.handler == q.handler && q'.ran == q.ran && q'.saves == q.saves
  {
    longer := path;
    var q := Last(longer).requests[r];
    if q.stage == Queued {
      var w := Last(longer);
      q := match ReadEnd(w.ends, w.lab.servers, q.end)
           case Some(t) => q.(target := Some(t), stage := Found)
           case None => q.(stage := Failed);
      longer := RequestMoves(longer, r, q);
    }
    if q.stage == Found {
      longer := RequestMoves(longer, r, q.(stage := Failed));
    }
    longer := FailedIsAnswered(longer, r);
  }

  // Once its server is cut off, a call whose handler is still running need not wait for it to return.
  lemma CutOffCallFails(path: seq<World>, r: Rid) returns (longer: seq<World>)
    requires IsPath(path) && Inv(Last(path)) && r in Last(path).requests
    requires Last(path).requests[r].stage in {Waiting, GotReply} && CutOff(Last(path), Last(path).requests[r])
    ensures Continues(path, longer) && Last(longer).lab == Last(path).lab && r in Last(longer).requests
    ensures Last(longer).requests[r].stage == Answered(false)
    ensures Last(longer).requests[r].handler == Last(path).requests[r].handler
  {
    var q := Last(path).requests[r];
    assert GoodRequest(Last(path).lab, q);
    longer := path;
    if q.stage == Waiting {
      q := q.(stage := SawDead);
      longer := RequestMoves(longer, r, q);
    }
    longer := RequestMoves(longer, r, q.(stage := Failed));
    longer := FailedIsAnswered(longer, r);
  }

  // And a call whose handler has returned and whose reply has passed the last check may lose its reply.
  lemma ReplyMayBeLost(path: seq<World>, r: Rid) returns (longer: seq<World>)
    requires IsPath(path) && r in Last(path).requests && Last(path).requests[r].stage == Passed
    ensures Continues(path, longer) && Last(longer).lab == Last(path).lab && r in Last(longer).requests
    ensures Last(longer).requests[r].stage == Answered(false)
    ensures Last(longer).requests[r].saves == Last(path).requests[r].saves
  {
    var q := Last(path).requests[r];
    longer := RequestMoves(path, r, q.(stage := Answered(false), replies := q.replies + 1));
  }

  // Main result: every call can still be answered at every moment, in the end without success.
  lemma EveryCallCanFail(path: seq<World>, r: Rid) returns (longer: seq<World>)
    requires IsPath(path) && Inv(Last(path)) && r in Last(path).requests && !Last(path).requests[r].stage.Answered?
    ensures Continues(path, longer) && r in Last(longer).requests && Last(longer).requests[r].stage == Answered(false)
  {
    var q := Last(path).requests[r];
    assert GoodRequest(Last(path).lab, q);
    if q.stage in {Queued, Found} {
      longer := RequestMayBeLost(path, r);
    } else if q.stage in {Waiting, GotReply} {
      var w := Last(path).(ends := Ends(map[], map[]));
      OneMore(path, w);
      PathEnds(Last(path), w);
      longer := CutOffCallFails(path + [w], r);
    } else if q.stage == Passed {
      longer := ReplyMayBeLost(path, r);
    } else {
      longer := path;
      if q.stage == SawDead {
        longer := RequestMoves(longer, r, q.(stage := Failed));
      }
      longer := FailedIsAnswered(longer, r);
    }
  }

  lemma PathEnds(w: World, w': World)
    requires Inv(w) && w' == w.(ends := w'.ends)
    ensures Inv(w')
  {
    NextKeeps(w, w');
  }

  // An instance, even one that was shut down long ago, may save at any time.
  lemma AnyInstanceMaySave(path: seq<World>, i: Inst, x: Content) returns (longer: seq<World>)
    requires IsPath(path) && i in Last(path).lab.instances
    requires Last(path).lab.instances[i].pid in Last(path).lab.persisters
    ensures Continues(path, longer)
    ensures Last(longer) == Last(path).(lab := Saved(Last(path).lab, Last(path).lab.instances[i].pid, x))
  {
    var w := Last(path);
    var w' := w.(lab := Saved(w.lab, w.lab.instances[i].pid, x));
    assert Save(w.lab, w'.lab, i, x);
    OneMore(path, w');
    longer := path + [w'];
  }

  // ---- The steps of the tester ----

  lemma TesterMoves(path: seq<World>, l: Lab, n: Name, x: nat) returns (longer: seq<World>)
    requires IsPath(path) && TesterStep(Last(path).lab, l, n, x)
    ensures Continues(path, longer) && Last(longer) == Last(path).(lab := l)
  {
    var w' := Last(path).(lab := l);
    OneMore(path, w');
    longer := path + [w'];
  }

  // The rest of StartServer.
  lemma StartCompletes(path: seq<World>, n: Name) returns (longer: seq<World>, j: Inst)
    requires IsPath(path) && n in Last(path).lab.slots
    requires Last(path).lab.slots[n].phase == Prepared && Last(path).lab.slots[n].saved.Some?
    ensures Continues(path, longer) && Last(longer).requests == Last(path).requests
    ensures var l, l' := Last(path).lab, Last(longer).lab;
            && j !in l.instances && l'.instances == l.instances[j := Instance(n, l.slots[n].saved.value)]
            && l'.persisters == l.persisters && l'.servers == l.servers[n := j]
            && l'.slots == l.slots[n := Slot(Up(j), l.slots[n].saved, l.slots[n].history + [j])]
  {
    var l := Last(path).lab;
    j := FreshId(l.instances.Keys);
    var s := l.slots[n];
    var l1 := l.(instances := l.instances[j := Instance(n, s.saved.value)],
                 slots := l.slots[n := s.(phase := Started(j), history := s.history + [j])]);
    assert StartInstance(l, l1, n, j);
    longer := TesterMoves(path, l1, n, j);
    var l2 := l1.(servers := l1.servers[n := j], slots := l1.slots[n := l1.slots[n].(phase := Up(j))]);
    assert AddServer(l1, l2, n);
    longer := TesterMoves(longer, l2, n, j);
  }

  // ---- Starting a server, shut down or not ----

  // The first part of StartServer, which itself does not look whether the server was shut down.
  ghost predicate BeginStart(l: Lab, l': Lab, n: Name, p: Pid)
  {
    && n in l.slots && (l.slots[n].phase == Down || l.slots[n].phase.Up?)
    && var s := l.slots[n];
    && (s.saved.Some? ==> s.saved.value in l.persisters)
    && p !in l.persisters
    && l' == l.(persisters := l.persisters[p := if s.saved.Some? then CopyOf(l, n) else Persister(EMPTY, None, [])],
                slots := l.slots[n := s.(phase := Prepared, saved := Some(p))])
  }

  // What the restart protocol promises, in one world.
  ghost predicate AllPassedDown(w: World)
  {
    forall r, k: nat, s: nat :: AnsweredSave(w, r, k, s) ==> PassedDown(w, r, k, s)
  }

  // It holds now and however things go on.
  ghost predicate AlwaysPassedDown(w: World)
  {
    forall path :: IsPath(path) && path[0] == w ==> AllPassedDown(Last(path))
  }

  lemma InvIsSafe(w: World)
    requires Inv(w)
    ensures AlwaysPassedDown(w)
  {
    forall path | IsPath(path) && path[0] == w ensures AllPassedDown(Last(path)) {
      PathKeeps(path, |path| - 1);
      forall r, k: nat, s: nat | AnsweredSave(Last(path), r, k, s) ensures PassedDown(Last(path), r, k, s) {
        InvPassesDown(Last(path), r, k, s);
      }
    }
  }

  lemma UpFacts(l: Lab, n: Name)
    requires GoodLab(l) && n in l.slots && l.slots[n].phase.Up?
    ensures var s, i := l.slots[n], l.slots[n].phase.inst;
            && n in l.servers && l.servers[n] == i && i in l.instances && l.instances[i].pid in l.persisters
            && s.saved == Some(l.instances[i].pid) && s.history != [] && s.history[|s.history| - 1] == i
            && OwnedByLast(l, n)
  {
    assert GoodSlot(l, n);
    assert GoodInstance(l, l.slots[n].phase.inst);
  }

  // The copy for the next instance is made although instance i, with persister o, is still registered.
  ghost predicate Superseded(l: Lab, n: Name, i: Inst, o: Pid, p: Pid)
  {
    && n in l.servers && l.servers[n] == i && i in l.instances && l.instances[i].pid == o
    && o in l.persisters && p in l.persisters && o != p
    && n in l.slots && l.slots[n].phase == Prepared && l.slots[n].saved == Some(p)
    && l.slots[n].history != [] && l.slots[n].history[|l.slots[n].history| - 1] == i
    && l.persisters[p].base == Current(l.persisters[o])
  }

  lemma UnsafeStartSupersedes(l: Lab, l': Lab, n: Name, p: Pid)
    requires GoodLab(l) && BeginStart(l, l', n, p) && l.slots[n].phase.Up?
    ensures l.slots[n].saved.Some?
    ensures Superseded(l', n, l.slots[n].phase.inst, l.slots[n].saved.value, p)
    ensures l'.persisters[l.slots[n].saved.value] == l.persisters[l.slots[n].saved.value]
  {
    UpFacts(l, n);
  }

  // The opposite of PassedDown: both instances are there, and the later one started from neither that
  // save nor any later one.
  ghost predicate Lost(w: World, r: Rid, k: nat, s: nat)
    requires AnsweredSave(w, r, k, s)
  {
    var l := w.lab;
    var (n, i) := w.requests[r].target.value;
    var j := l.slots[n].history[k + 1];
    && i in l.instances && j in l.instances
    && l.instances[i].pid in l.persisters && l.instances[j].pid in l.persisters
    && var old' := l.persisters[l.instances[i].pid];
    && var new' := l.persisters[l.instances[j].pid];
    && s < |old'.saves| && forall last :: s <= last < |old'.saves| ==> new'.base != old'.saves[last]
  }

  lemma SaveIsLost(w: World, r: Rid, n: Name, i: Inst, j: Inst, k: nat, s: nat)
    requires Acknowledged(w, r, n, i, s) && n in w.lab.slots && i in w.lab.instances && j in w.lab.instances
    requires w.lab.instances[i].pid in w.lab.persisters && w.lab.instances[j].pid in w.lab.persisters
    requires k + 1 < |w.lab.slots[n].history| && w.lab.slots[n].history[k] == i && w.lab.slots[n].history[k + 1] == j
    requires var old', new' := w.lab.persisters[w.lab.instances[i].pid], w.lab.persisters[w.lab.instances[j].pid];
             |old'.saves| == s + 1 && new'.base != old'.saves[s]
    ensures AnsweredSave(w, r, k, s) && Lost(w, r, k, s)
  {
  }

  lemma SupersededLoses(w: World, n: Name, i: Inst, o: Pid, p: Pid, x: Content)
    returns (path: seq<World>, r: Rid, k: nat, s: nat)
    requires Superseded(w.lab, n, i, o, p) && x != Current(w.lab.persisters[o])
    ensures IsPath(path) && path[0] == w && n in Last(path).lab.slots && Last(path).lab.slots[n].phase.Up?
    ensures AnsweredSave(Last(path), r, k, s) && Lost(Last(path), r, k, s)
  {
    k, s := |w.lab.slots[n].history| - 1, |w.lab.persisters[o].saves|;
    path, r := CallSucceeds([w], n, x);
    var j;
    path, j := StartCompletes(path, n);
    SaveIsLost(Last(path), r, n, i, j, k, s);
  }

  // Whenever a start skips the shutdown, there is a continuation in which a call on the old instance
  // saves x, is answered true, and the new instance has started from neither that save nor a later one.
  lemma RestartWithoutShutdownLosesSave(w: World, w': World, n: Name, p: Pid, x: Content)
    returns (path: seq<World>, r: Rid, k: nat, s: nat)
    requires Inv(w) && w' == w.(lab := w'.lab) && BeginStart(w.lab, w'.lab, n, p)
    requires w.lab.slots[n].phase.Up?
    requires w.lab.slots[n].saved.Some? ==> x != Current(w.lab.persisters[w.lab.slots[n].saved.value])
    ensures IsPath(path) && path[0] == w' && n in Last(path).lab.slots && Last(path).lab.slots[n].phase.Up?
    ensures AnsweredSave(Last(path), r, k, s) && Lost(Last(path), r, k, s)
  {
    UnsafeStartSupersedes(w.lab, w'.lab, n, p);
    path, r, k, s := SupersededLoses(w', n, w.lab.slots[n].phase.inst, w.lab.slots[n].saved.value, p, x);
  }

  // Main result: beginning to start a server keeps the promise of the restart protocol, in every
  // continuation, if and only if the server was shut down (or has never run).
  lemma StartIsSafeExactlyWhenDown(w: World, w': World, n: Name, p: Pid)
    requires Inv(w) && w' == w.(lab := w'.lab) && BeginStart(w.lab, w'.lab, n, p)
    ensures AlwaysPassedDown(w') <==> w.lab.slots[n].phase == Down
  {
    if w.lab.slots[n].phase == Down {
      assert PreparePersister(w.lab, w'.lab, n, p);
      PrepareKeepsLab(w.lab, w'.lab, n, p);
      LabStepKeeps(w, w');
      InvIsSafe(w');
    } else {
      UpFacts(w.lab, n);
      var now := Current(w.lab.persisters[w.lab.slots[n].saved.value]);
      var x := Content(now.raftstate + [0], now.snapshot);
      assert |x.raftstate| != |now.raftstate|;
      var path, r, k, s := RestartWithoutShutdownLosesSave(w, w', n, p, x);
      assert !PassedDown(Last(path), r, k, s);
    }
  }

  // ---- Concrete runs ----

  // The first start of a server.
  lemma ServerComesUp() returns (run: seq<World>, j: Inst)
    ensures IsRun(run) && IsPath(run)
    ensures Last(run).lab == Lab(map[0 := j], map[0 := Slot(Up(j), Some(0), [j])],
                                 map[0 := Persister(EMPTY, None, [])], map[j := Instance(0, 0)])
  {
    var l := Lab(map[], map[0 := Slot(Down, None, [])], map[], map[]);
    var w := World(Ends(map[], map[]), l, map[]);
    var l1 := l.(persisters := map[0 := Persister(EMPTY, None, [])], slots := map[0 := Slot(Prepared, Some(0), [])]);
    assert PreparePersister(l, l1, 0, 0);
    run := TesterMoves([w], l1, 0, 0);
    run, j := StartCompletes(run, 0);
    assert run[0] == w && Init(w);
    var up := Last(run).lab;
    assert up.servers == map[0 := j] && up.instances == map[j := Instance(0, 0)];
    assert l1.slots[0].history + [j] == [j];
    assert up.slots == map[0 := Slot(Up(j), Some(0), [j])];
    assert up.persisters == map[0 := Persister(EMPTY, None, [])];
  }

  // A run, one start without a shutdown, and a continuation that breaks the promise.
  lemma LosingRun() returns (run: seq<World>, w': World, path: seq<World>)
    ensures IsRun(run) && w' == Last(run).(lab := w'.lab) && BeginStart(Last(run).lab, w'.lab, 0, 1)
    ensures IsPath(path) && path[0] == w' && !AllPassedDown(Last(path))
  {
    var i;
    run, i := ServerComesUp();
    RunKeeps(run, |run| - 1);
    var l := Last(run).lab;
    w' := Last(run).(lab := l.(persisters := l.persisters[1 := CopyOf(l, 0)],
                               slots := l.slots[0 := l.slots[0].(phase := Prepared, saved := Some(1))]));
    var r, k, s;
    path, r, k, s := RestartWithoutShutdownLosesSave(Last(run), w', 0, 1, Content([1], []));
    assert !PassedDown(Last(path), r, k, s);
  }

  // ShutdownServer followed by StartServer on a server that is up.
  lemma ProperRestart(path: seq<World>, n: Name, p: Pid, q: Pid) returns (longer: seq<World>, j: Inst)
    requires IsPath(path) && Inv(Last(path)) && n in Last(path).lab.slots && Last(path).lab.slots[n].phase.Up?
    requires p !in Last(path).lab.persisters && q !in Last(path).lab.persisters && p != q
    ensures Continues(path, longer) && Last(longer).requests == Last(path).requests
    ensures n in Last(longer).lab.slots && Last(longer).lab.slots[n].phase == Up(j)
    ensures Last(longer).lab.slots[n].history == Last(path).lab.slots[n].history + [j]
  {
    var l := Last(path).lab;
    UpFacts(l, n);
    var s := l.slots[n];
    var l1 := l.(servers := l.servers - {n}, slots := l.slots[n := s.(phase := Deleted)]);
    assert DeleteServer(l, l1, n);
    longer := TesterMoves(path, l1, n, 0);
    var l2 := l1.(persisters := l1.persisters[p := CopyOf(l1, n)],
                  slots := l1.slots[n := s.(phase := Down, saved := Some(p))]);
    assert ReplacePersister(l1, l2, n, p);
    longer := TesterMoves(longer, l2, n, p);
    var l3 := l2.(persisters := l2.persisters[q := CopyOf(l2, n)],
                  slots := l2.slots[n := s.(phase := Prepared, saved := Some(q))]);
    assert PreparePersister(l2, l3, n, q);
    longer := TesterMoves(longer, l3, n, q);
    longer, j := StartCompletes(longer, n);
  }

  // With the shutdown in place the promise is not an empty one: in some run a call is answered true,
  // its save is there, and the next instance is up.
  lemma SurvivingRun() returns (run: seq<World>, r: Rid)
    ensures IsRun(run) && AnsweredSave(Last(run), r, 0, 0)
    ensures 0 in Last(run).lab.slots && Last(run).lab.slots[0].phase.Up? && |Last(run).lab.slots[0].history| == 2
  {
    var i, j;
    run, i := ServerComesUp();
    var first := run[0];
    run, r := CallSucceeds(run, 0, Content([1], []));
    assert run[0] == first;
    RunKeeps(run, |run| - 1);
    run, j := ProperRestart(run, 0, 1, 2);
  }
}
