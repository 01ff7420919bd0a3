// The simulated network and the server restart protocol: in-flight requests, DeleteServer and the
// hand-over of persisted state, as a state machine over its atomic steps.
module Network {

  type End = nat
  type Name = nat
  type Inst = nat
  type Pid = nat
  type Rid = nat

  datatype Option<T> = None | Some(value: T)

  datatype Content = Content(raftstate: seq<int>, snapshot: seq<int>)

  const EMPTY := Content([], [])

  // A persister: what it started with, where that was copied from (whose persister, and after how
  // many saves), and every save made to it since.
  datatype Persister = Persister(base: Content, source: Option<(Pid, nat)>, saves: seq<Content>)

  function ContentAt(p: Persister, n: nat): Content
    requires n <= |p.saves|
  {
    if n == 0 then p.base else p.saves[n - 1]
  }

  function Current(p: Persister): Content
  {
    ContentAt(p, |p.saves|)
  }

  // The end points of the network, and the registered servers; an absent server is a nil one.
  datatype Ends = Ends(enabled: map<End, bool>, connections: map<End, Name>)

  type Servers = map<Name, Inst>

  function ReadEnd(ends: Ends, servers: Servers, e: End): Option<(Name, Inst)>
  {
    if e in ends.enabled && ends.enabled[e] && e in ends.connections && ends.connections[e] in servers
    then Some((ends.connections[e], servers[ends.connections[e]]))
    else None
  }

  predicate ServerDead(ends: Ends, servers: Servers, e: End, n: Name, i: Inst)
  {
    !(e in ends.enabled && ends.enabled[e]) || !(n in servers && servers[n] == i)
  }

  datatype Handler = NotStarted | Running | Returned

  datatype Stage =
    | Queued              // sent, end not yet looked up
    | Found               // a live server was found; the request may still be dropped
    | Waiting             // the handler has been started
    | GotReply            // the handler's reply has arrived
    | SawDead             // stopped waiting because the server is gone
    | Passed              // the final check found the server still registered
    | Failed
    | Answered(ok: bool)

  datatype Request = Request(
    end: End, target: Option<(Name, Inst)>, stage: Stage, handler: Handler,
    ran: nat, replies: nat, saves: set<nat>)

  // The tester's progress through ShutdownServer and StartServer for one server name.
  datatype Phase =
    | Down                // shut down, or never started
    | Prepared            // StartServer: the fresh persister exists
    | Started(inst: Inst) // StartServer: the new instance runs on it
    | Up(inst: Inst)      // StartServer has registered the instance
    | Deleted             // ShutdownServer: DeleteServer has been called

  datatype Slot = Slot(phase: Phase, saved: Option<Pid>, history: seq<Inst>)

  datatype Instance = Instance(name: Name, pid: Pid)

  // Everything but the ends and the requests.
  datatype Lab = Lab(
    servers: Servers, slots: map<Name, Slot>, persisters: map<Pid, Persister>, instances: map<Inst, Instance>)

  datatype World = World(ends: Ends, lab: Lab, requests: map<Rid, Request>)

  ghost predicate Init(w: World)
  {
    && w.lab.servers == map[] && w.lab.persisters == map[] && w.lab.instances == map[] && w.requests == map[]
    && forall n :: n in w.lab.slots ==> w.lab.slots[n] == Slot(Down, None, [])
  }

  // ---- Steps of the tester ----

  ghost predicate DeleteServer(l: Lab, l': Lab, n: Name)
  {
    && n in l.slots && (l.slots[n].phase.Up? || l.slots[n].phase == Down)
    && l' == l.(servers := l.servers - {n},
                slots := l.slots[n := l.slots[n].(phase := Deleted)])
  }

  // The copy that replaces an instance's persister or passes one on.
  ghost function CopyOf(l: Lab, n: Name): Persister
    requires n in l.slots && l.slots[n].saved.Some? && l.slots[n].saved.value in l.persisters
  {
    var s := l.slots[n];
    var p := l.persisters[s.saved.value];
    if OwnedByLast(l, n) then Persister(Current(p), Some((s.saved.value, |p.saves|)), [])
    else Persister(Current(p), p.source, [])
  }

  ghost predicate OwnedByLast(l: Lab, n: Name)
    requires n in l.slots
  {
    var s := l.slots[n];
    s.history != [] && s.history[|s.history| - 1] in l.instances &&
    s.saved == Some(l.instances[s.history[|s.history| - 1]].pid)
  }

  // The rest of ShutdownServer: a copy supersedes the persister, if there is one.
  ghost predicate ReplacePersister(l: Lab, l': Lab, n: Name, p: Pid)
  {
    && n in l.slots && l.slots[n].phase == Deleted
    && var s := l.slots[n];
    && (s.saved.Some? ==> s.saved.value in l.persisters)
    && p !in l.persisters
    && l' == if s.saved.None? then l.(slots := l.slots[n := s.(phase := Down)])
             else l.(persisters := l.persisters[p := CopyOf(l, n)],
                     slots := l.slots[n := s.(phase := Down, saved := Some(p))])
  }

  // StartServer, first part: a fresh persister holding a copy of the saved state.
  ghost predicate PreparePersister(l: Lab, l': Lab, n: Name, p: Pid)
  {
    && n in l.slots && l.slots[n].phase == Down
    && var s := l.slots[n];
    && (s.saved.Some? ==> s.saved.value in l.persisters)
    && p !in l.persisters
    && l' == l.(persisters := l.persisters[p := if s.saved.Some? then CopyOf(l, n) else Persister(EMPTY, None, [])],
                slots := l.slots[n := s.(phase := Prepared, saved := Some(p))])
  }

  ghost predicate StartInstance(l: Lab, l': Lab, n: Name, i: Inst)
  {
    && n in l.slots && l.slots[n].phase == Prepared && l.slots[n].saved.Some?
    && i !in l.instances
    && var s := l.slots[n];
    && l' == l.(instances := l.instances[i := Instance(n, s.saved.value)],
                slots := l.slots[n := s.(phase := Started(i), history := s.history + [i])])
  }

  ghost predicate AddServer(l: Lab, l': Lab, n: Name)
  {
    && n in l.slots && l.slots[n].phase.Started?
    && var i := l.slots[n].phase.inst;
    && l' == l.(servers := l.servers[n := i],
                slots := l.slots[n := l.slots[n].(phase := Up(i))])
  }

  ghost predicate TesterStep(l: Lab, l': Lab, n: Name, x: nat)
  {
    || DeleteServer(l, l', n) || ReplacePersister(l, l', n, x) || PreparePersister(l, l', n, x)
    || StartInstance(l, l', n, x) || AddServer(l, l', n)
  }

  // ---- Steps of instances ----

  // Any instance, even a killed one, may save at any time.
  ghost predicate Save(l: Lab, l': Lab, i: Inst, c: Content)
  {
    && i in l.instances && l.instances[i].pid in l.persisters
    && var p := l.instances[i].pid;
    && l' == l.(persisters := l.persisters[p := l.persisters[p].(saves := l.persisters[p].saves + [c])])
  }

  // A save by the handler of a request, which remembers which of its persister's saves it was.
  ghost predicate HandlerSave(w: World, w': World, r: Rid, c: Content)
  {
    && r in w.requests && w.requests[r].handler == Running && w.requests[r].target.Some?
    && var q := w.requests[r];
    && var i := q.target.value.1;
    && Save(w.lab, w'.lab, i, c)
    && w' == w.(lab := w'.lab,
                requests := w.requests[r := q.(saves := q.saves + {|w.lab.persisters[w.lab.instances[i].pid].saves|})])
  }

  // ---- Steps of a request ----

  ghost predicate Send(w: World, w': World, r: Rid, e: End)
  {
    && r !in w.requests
    && w' == w.(requests := w.requests[r := Request(e, None, Queued, NotStarted, 0, 0, {})])
  }

  // What one atomic step may make of a request, given the network at that moment.
  ghost predicate Moves(ends: Ends, servers: Servers, q: Request, q': Request)
  {
    match q.stage
    case Queued =>
      (match ReadEnd(ends, servers, q.end)
       case Some(t) => q' == q.(target := Some(t), stage := Found)
       case None => q' == q.(stage := Failed))
    case Found =>
      || q' == q.(stage := Failed)
      || q' == q.(stage := Waiting, handler := Running, ran := q.ran + 1)
    case Waiting =>
      || (q.handler == Returned && q' == q.(stage := GotReply))
      || (&& q.target.Some? && ServerDead(ends, servers, q.end, q.target.value.0, q.target.value.1)
          && q' == q.(stage := SawDead))
    case GotReply =>
      q.target.Some? &&
      q' == q.(stage := if ServerDead(ends, servers, q.end, q.target.value.0, q.target.value.1) then Failed else Passed)
    case SawDead => q' == q.(stage := Failed)
    case Passed =>
      || q' == q.(stage := Answered(true), replies := q.replies + 1)
      || q' == q.(stage := Answered(false), replies := q.replies + 1)
    case Failed => q' == q.(stage := Answered(false), replies := q.replies + 1)
    case Answered(_) => false
  }

  ghost predicate RequestStep(w: World, w': World, r: Rid)
  {
    && r in w.requests && r in w'.requests
    && (|| Moves(w.ends, w.lab.servers, w.requests[r], w'.requests[r])
        || (w.requests[r].handler == Running && w'.requests[r] == w.requests[r].(handler := Returned)))
    && w' == w.(requests := w.requests[r := w'.requests[r]])
  }

  ghost predicate Next(w: World, w': World)
  {
    || w' == w.(ends := w'.ends)   // ends may be made, connected, enabled and disabled at any time
    || (w' == w.(lab := w'.lab) && exists n, x :: TesterStep(w.lab, w'.lab, n, x))
    || (w' == w.(lab := w'.lab) && exists i, c :: Save(w.lab, w'.lab, i, c))
    || (exists r, c :: HandlerSave(w, w', r, c))
    || (exists r, e :: Send(w, w', r, e))
    || (exists r :: RequestStep(w, w', r))
  }

  ghost predicate StepAt(run: seq<World>, i: nat)
    requires i < |run| - 1
  {
    Next(run[i], run[i + 1])
  }

  ghost predicate IsRun(run: seq<World>)
  {
    run != [] && Init(run[0]) && forall i: nat :: i < |run| - 1 ==> StepAt(run, i)
  }

  // ---- The invariant ----

  // The instance still runs under its name, as far as the tester is concerned.
  ghost predicate InService(l: Lab, i: Inst)
    requires i in l.instances
  {
    var n := l.instances[i].name;
    n in l.slots && (l.slots[n].phase == Up(i) || l.slots[n].phase == Started(i))
  }

  ghost predicate Owned(l: Lab, p: Pid)
  {
    exists i :: i in l.instances && l.instances[i].pid == p
  }

  ghost predicate GoodInstance(l: Lab, i: Inst)
    requires i in l.instances
  {
    && l.instances[i].pid in l.persisters
    && forall j :: j in l.instances && j != i ==> l.instances[j].pid != l.instances[i].pid
  }

  // A copy was taken from an instance's persister after that instance went out of service, and it
  // starts with what that persister held at the time.
  ghost predicate GoodPersister(l: Lab, p: Pid)
    requires p in l.persisters
  {
    l.persisters[p].source.Some? ==>
      var (q, n) := l.persisters[p].source.value;
      && q in l.persisters && Owned(l, q)
      && n <= |l.persisters[q].saves| && l.persisters[p].base == ContentAt(l.persisters[q], n)
      && forall i :: i in l.instances && l.instances[i].pid == q ==> !InService(l, i)
  }

  // The saved persister of n is nobody's, has not been written, and passes on the state of the last
  // instance, if there was one.
  ghost predicate Passing(l: Lab, n: Name)
    requires n in l.slots
  {
    var s := l.slots[n];
    && s.saved.Some? && s.saved.value in l.persisters && !Owned(l, s.saved.value)
    && l.persisters[s.saved.value].saves == []
    && (s.history != [] ==> HeirOf(l, s.saved.value, s.history[|s.history| - 1]))
  }

  // Persister p was copied, directly or through a passing copy, from the persister of instance i.
  ghost predicate HeirOf(l: Lab, p: Pid, i: Inst)
  {
    && p in l.persisters && i in l.instances
    && l.persisters[p].source.Some? && l.persisters[p].source.value.0 == l.instances[i].pid
  }

  ghost predicate GoodPhase(l: Lab, n: Name)
    requires n in l.slots
  {
    var s := l.slots[n];
    match s.phase
    case Up(i) => OwnedByLast(l, n) && s.history[|s.history| - 1] == i && n in l.servers && l.servers[n] == i
    case Started(i) => OwnedByLast(l, n) && s.history[|s.history| - 1] == i
    case Prepared => Passing(l, n)
    case Down => if s.saved.Some? then Passing(l, n) else s.history == []
    case Deleted => if s.saved.Some? then OwnedByLast(l, n) || Passing(l, n) else s.history == []
  }

  ghost predicate GoodSlot(l: Lab, n: Name)
    requires n in l.slots
  {
    var s := l.slots[n];
    && GoodPhase(l, n)
    && (n in l.servers ==> s.phase.Up?)
    && (s.saved.Some? ==> forall m :: m in l.slots && m != n ==> l.slots[m].saved != s.saved)
    && (forall k :: 0 <= k < |s.history| ==> s.history[k] in l.instances && l.instances[s.history[k]].name == n)
    && (forall k :: 0 < k < |s.history| ==> HeirOf(l, l.instances[s.history[k]].pid, s.history[k - 1]))
  }

  // Every copy taken of the persister this request's handler wrote to has all its saves.
  ghost predicate Kept(l: Lab, q: Request)
  {
    q.target.Some? && q.target.value.1 in l.instances &&
    forall p :: p in l.persisters && l.persisters[p].source.Some? &&
                l.persisters[p].source.value.0 == l.instances[q.target.value.1].pid ==>
                  forall k :: k in q.saves ==> k < l.persisters[p].source.value.1
  }

  ghost predicate GoodTarget(l: Lab, q: Request)
  {
    match q.target
    case None => q.stage in {Queued, Failed, Answered(false)} && q.handler == NotStarted && q.saves == {}
    case Some(t) =>
      && t.1 in l.instances && l.instances[t.1].name == t.0 && l.instances[t.1].pid in l.persisters
      && forall k :: k in q.saves ==> k < |l.persisters[l.instances[t.1].pid].saves|
  }

  ghost predicate GoodRequest(l: Lab, q: Request)
  {
    && GoodTarget(l, q)
    && (q.stage == Queued || q.stage == Found ==> q.handler == NotStarted)
    && q.ran == (if q.handler == NotStarted then 0 else 1)
    && (q.handler == NotStarted ==> q.saves == {})
    && q.replies == (if q.stage.Answered? then 1 else 0)
    && (q.stage in {GotReply, Passed, Answered(true)} ==> q.handler == Returned)
    && (q.stage in {Passed, Answered(true)} ==> Kept(l, q))
  }

  ghost predicate GoodLab(l: Lab)
  {
    && l.servers.Keys <= l.slots.Keys
    && (forall n :: n in l.slots ==> GoodSlot(l, n))
    && (forall i :: i in l.instances ==> GoodInstance(l, i))
    && (forall p :: p in l.persisters ==> GoodPersister(l, p))
  }

  ghost predicate Inv(w: World)
  {
    GoodLab(w.lab) && forall r :: r in w.requests ==> GoodRequest(w.lab, w.requests[r])
  }

  // ---- Steps of a request keep the invariant ----

  // A registered instance is in service, so no copy of its persister exists yet.
  lemma RegisteredHasNoHeir(l: Lab, n: Name, i: Inst, p: Pid)
    requires GoodLab(l) && n in l.servers && l.servers[n] == i && p in l.persisters
    ensures i in l.instances && l.instances[i].name == n
    ensures !HeirOf(l, p, i)
  {
  }

  lemma MoveKeeps(w: World, q: Request, q': Request)
    requires Inv(w) && GoodRequest(w.lab, q) && Moves(w.ends, w.lab.servers, q, q')
    ensures GoodRequest(w.lab, q')
  {
    if q.stage == Queued && q'.stage == Found {
      var (n, i) := q'.target.value;
      assert GoodSlot(w.lab, n);
      assert GoodInstance(w.lab, i);
    }
    if q.stage == GotReply && q'.stage == Passed {
      var (n, i) := q.target.value;
      forall p | p in w.lab.persisters ensures !HeirOf(w.lab, p, i) {
        RegisteredHasNoHeir(w.lab, n, i, p);
      }
    }
  }

  lemma RequestStepKeeps(w: World, w': World, r: Rid)
    requires Inv(w) && RequestStep(w, w', r)
    ensures Inv(w')
  {
    var q, q' := w.requests[r], w'.requests[r];
    assert GoodRequest(w.lab, q);
    if Moves(w.ends, w.lab.servers, q, q') {
      MoveKeeps(w, q, q');
    }
  }

  lemma SendKeeps(w: World, w': World, r: Rid, e: End)
    requires Inv(w) && Send(w, w', r, e)
    ensures Inv(w')
  {
  }

  // ---- Steps of the lab keep the invariant ----

  // Nothing is forgotten, and a new copy has every save made so far, or what an older copy has.
  ghost predicate Extends(l: Lab, l': Lab)
  {
    && (forall i :: i in l.instances ==> i in l'.instances && l'.instances[i] == l.instances[i])
    && (forall p :: p in l.persisters ==>
          && p in l'.persisters && l'.persisters[p].source == l.persisters[p].source
          && |l.persisters[p].saves| <= |l'.persisters[p].saves|)
    && (forall p :: p in l'.persisters && p !in l.persisters && l'.persisters[p].source.Some? ==>
          var (q, n) := l'.persisters[p].source.value;
          || (q in l.persisters && n == |l.persisters[q].saves|)
          || (exists p0 :: p0 in l.persisters && l.persisters[p0].source == l'.persisters[p].source))
  }

  lemma ExtensionKeepsRequest(l: Lab, l': Lab, q: Request)
    requires Extends(l, l') && GoodRequest(l, q)
    ensures GoodRequest(l', q)
  {
  }

  // An instance's save: the persister it goes to is nobody's passing copy.
  lemma SaveKeepsSlot(l: Lab, l': Lab, i: Inst, c: Content, n: Name)
    requires Save(l, l', i, c) && n in l.slots && GoodSlot(l, n)
    ensures GoodSlot(l', n)
  {
  }

  lemma SaveKeepsPersister(l: Lab, l': Lab, i: Inst, c: Content, p: Pid)
    requires Save(l, l', i, c) && p in l.persisters && GoodPersister(l, p)
    ensures GoodPersister(l', p)
  {
  }

  lemma SaveExtends(l: Lab, l': Lab, i: Inst, c: Content)
    requires Save(l, l', i, c)
    ensures Extends(l, l')
  {
  }

  lemma SaveKeepsLab(l: Lab, l': Lab, i: Inst, c: Content)
    requires GoodLab(l) && Save(l, l', i, c)
    ensures GoodLab(l') && Extends(l, l')
  {
    SaveExtends(l, l', i, c);
    forall n | n in l'.slots ensures GoodSlot(l', n) {
      SaveKeepsSlot(l, l', i, c, n);
    }
    forall j | j in l'.instances ensures GoodInstance(l', j) {
      assert GoodInstance(l, j);
    }
    forall x | x in l'.persisters ensures GoodPersister(l', x) {
      SaveKeepsPersister(l, l', i, c, x);
    }
  }

  // A slot that keeps its record keeps it good when instances and persisters are only added.
  lemma OtherSlotKeeps(l: Lab, l': Lab, n: Name)
    requires n in l.slots && GoodSlot(l, n) && Extends(l, l')
    requires n in l'.slots && l'.slots[n] == l.slots[n]
    requires n in l.servers <==> n in l'.servers
    requires n in l.servers ==> l'.servers[n] == l.servers[n]
    requires forall p :: p in l.persisters ==> l'.persisters[p] == l.persisters[p]
    requires l.slots[n].saved.Some? && Owned(l', l.slots[n].saved.value) ==> Owned(l, l.slots[n].saved.value)
    requires forall m :: m in l'.slots && m != n && l'.slots[m].saved == l.slots[n].saved ==>
                           m in l.slots && l.slots[m].saved == l.slots[n].saved
    ensures GoodSlot(l', n)
  {
    assert Passing(l, n) ==> Passing(l', n);
    assert OwnedByLast(l, n) ==> OwnedByLast(l', n);
  }

  // What a tester step on slot n leaves alone.
  ghost predicate Framed(l: Lab, l': Lab, n: Name)
  {
    && n in l.slots && l'.slots.Keys == l.slots.Keys && l'.servers.Keys <= l.servers.Keys + {n}
    && Extends(l, l')
    && (forall p :: p in l.persisters ==> l'.persisters[p] == l.persisters[p])
    && (forall m :: m in l.slots && m != n ==> l'.slots[m] == l.slots[m])
    && (forall m :: m in l.slots && m != n ==> (m in l.servers <==> m in l'.servers))
    && (forall m :: m in l.servers && m != n ==> m in l'.servers && l'.servers[m] == l.servers[m])
    && (forall i :: i in l.instances && InService(l', i) ==> InService(l, i))
    && (forall i :: i in l'.instances && i !in l.instances ==> !Owned(l, l'.instances[i].pid))
    // The saved persister of n is the old one or new, and so is every newly owned one.
    && (l'.slots[n].saved == l.slots[n].saved || (l'.slots[n].saved.Some? && l'.slots[n].saved.value !in l.persisters))
    && (forall x :: Owned(l', x) ==> Owned(l, x) || (l.slots[n].saved.Some? && x == l.slots[n].saved.value))
  }

  lemma FramedKeepsSlot(l: Lab, l': Lab, n: Name, m: Name)
    requires GoodLab(l) && Framed(l, l', n) && m in l.slots && m != n
    ensures GoodSlot(l', m)
  {
    assert GoodSlot(l, m);
    var s := l.slots[m].saved;
    if s.Some? {
      assert l.slots[n].saved != s;
      assert s.value in l.persisters by {
        if OwnedByLast(l, m) {
          assert GoodInstance(l, l.slots[m].history[|l.slots[m].history| - 1]);
        }
      }
    }
    OtherSlotKeeps(l, l', m);
  }

  lemma FramedKeepsInstance(l: Lab, l': Lab, n: Name, i: Inst)
    requires GoodLab(l) && Framed(l, l', n) && i in l.instances
    ensures GoodInstance(l', i)
  {
  }

  lemma FramedKeepsPersister(l: Lab, l': Lab, n: Name, p: Pid)
    requires GoodLab(l) && Framed(l, l', n) && p in l.persisters
    ensures GoodPersister(l', p)
  {
  }

  lemma OwnedExtends(l: Lab, l': Lab, q: Pid)
    requires forall i :: i in l.instances ==> i in l'.instances && l'.instances[i] == l.instances[i]
    requires Owned(l, q)
    ensures Owned(l', q)
  {
  }

  lemma FramedKeepsLab(l: Lab, l': Lab, n: Name)
    requires GoodLab(l) && Framed(l, l', n) && GoodSlot(l', n)
    requires forall i :: i in l'.instances && i !in l.instances ==> GoodInstance(l', i)
    requires forall p :: p in l'.persisters && p !in l.persisters ==> GoodPersister(l', p)
    ensures GoodLab(l')
  {
    forall m | m in l'.slots ensures GoodSlot(l', m) {
      if m != n {
        FramedKeepsSlot(l, l', n, m);
      }
    }
    forall i | i in l'.instances ensures GoodInstance(l', i) {
      if i in l.instances {
        FramedKeepsInstance(l, l', n, i);
      }
    }
    forall p | p in l'.persisters ensures GoodPersister(l', p) {
      if p in l.persisters {
        FramedKeepsPersister(l, l', n, p);
      }
    }
  }

  // Same instances and persisters, and no instance back in service.
  lemma SlotOnlyFramed(l: Lab, l': Lab, n: Name)
    requires DeleteServer(l, l', n) || AddServer(l, l', n)
    ensures Framed(l, l', n)
  {
    assert forall x :: Owned(l', x) ==> Owned(l, x);
  }

  lemma DeleteKeepsLab(l: Lab, l': Lab, n: Name)
    requires GoodLab(l) && DeleteServer(l, l', n)
    ensures GoodLab(l') && Extends(l, l')
  {
    SlotOnlyFramed(l, l', n);
    SlotOnlyKeeps(l, l', n);
    FramedKeepsLab(l, l', n);
  }

  lemma AddKeepsLab(l: Lab, l': Lab, n: Name)
    requires GoodLab(l) && AddServer(l, l', n)
    ensures GoodLab(l') && Extends(l, l')
  {
    SlotOnlyFramed(l, l', n);
    SlotOnlyKeeps(l, l', n);
    FramedKeepsLab(l, l', n);
  }

  lemma SlotOnlyKeeps(l: Lab, l': Lab, n: Name)
    requires DeleteServer(l, l', n) || AddServer(l, l', n)
    requires GoodSlot(l, n)
    ensures GoodSlot(l', n)
  {
  }

  // A step that gives slot n a new saved persister.
  ghost predicate PassesOn(l: Lab, l': Lab, n: Name, p: Pid, phase: Phase, given: Persister)
  {
    && n in l.slots && p !in l.persisters && !phase.Up? && !phase.Started?
    && l' == l.(persisters := l.persisters[p := given],
                slots := l.slots[n := l.slots[n].(phase := phase, saved := Some(p))])
  }

  lemma PassesOnFramed(l: Lab, l': Lab, n: Name, p: Pid, phase: Phase, given: Persister)
    requires PassesOn(l, l', n, p, phase, given)
    requires given.source.Some? ==>
               var (q, k) := given.source.value;
               || (q in l.persisters && k == |l.persisters[q].saves|)
               || (exists p0 :: p0 in l.persisters && l.persisters[p0].source == given.source)
    ensures Framed(l, l', n)
  {
    assert forall x :: Owned(l', x) ==> Owned(l, x);
  }

  // What a copy inherits: its content, and a source that is out of service.
  lemma CopyFacts(l: Lab, n: Name)
    requires GoodLab(l) && n in l.slots && (l.slots[n].phase == Deleted || l.slots[n].phase == Down)
    requires l.slots[n].saved.Some?
    ensures l.slots[n].saved.value in l.persisters
    ensures var c := CopyOf(l, n);
            var s := l.slots[n];
            && c.saves == []
            && (s.history != [] ==> c.source.Some? && c.source.value.0 == l.instances[s.history[|s.history| - 1]].pid)
            && (c.source.Some? ==>
                  var (q, k) := c.source.value;
                  && q in l.persisters && Owned(l, q) && k <= |l.persisters[q].saves|
                  && c.base == ContentAt(l.persisters[q], k)
                  && (forall i :: i in l.instances && l.instances[i].pid == q ==> !InService(l, i))
                  && (|| k == |l.persisters[q].saves|
                      || exists p0 :: p0 in l.persisters && l.persisters[p0].source == c.source))
  {
  }

  lemma NewSavedIsGood(l: Lab, l': Lab, n: Name, p: Pid, phase: Phase, given: Persister)
    requires GoodLab(l) && PassesOn(l, l', n, p, phase, given)
    requires (phase == Down || phase == Prepared) && n !in l.servers
    requires given.saves == []
    requires var s := l.slots[n];
             s.history != [] ==> s.history[|s.history| - 1] in l.instances && given.source.Some? &&
                                 given.source.value.0 == l.instances[s.history[|s.history| - 1]].pid
    ensures GoodSlot(l', n)
  {
    NewIsNobodys(l, p);
    assert GoodSlot(l, n);
    PassedOnSlot(l, l', n, p, phase, given);
  }

  lemma NewIsNobodys(l: Lab, p: Pid)
    requires GoodLab(l) && p !in l.persisters
    ensures !Owned(l, p)
    ensures forall m :: m in l.slots ==> l.slots[m].saved != Some(p)
  {
  }

  lemma PassedOnSlot(l: Lab, l': Lab, n: Name, p: Pid, phase: Phase, given: Persister)
    requires PassesOn(l, l', n, p, phase, given) && GoodSlot(l, n)
    requires (phase == Down || phase == Prepared) && n !in l.servers
    requires given.saves == []
    requires var s := l.slots[n];
             s.history != [] ==> s.history[|s.history| - 1] in l.instances && given.source.Some? &&
                                 given.source.value.0 == l.instances[s.history[|s.history| - 1]].pid
    requires !Owned(l, p) && forall m :: m in l.slots ==> l.slots[m].saved != Some(p)
    ensures GoodSlot(l', n)
  {
  }

  lemma NewCopyIsGood(l: Lab, l': Lab, n: Name, p: Pid, phase: Phase)
    requires GoodLab(l) && n in l.slots && (l.slots[n].phase == Deleted || l.slots[n].phase == Down)
    requires l.slots[n].saved.Some? && l.slots[n].saved.value in l.persisters
    requires PassesOn(l, l', n, p, phase, CopyOf(l, n)) && (phase == Down || phase == Prepared)
    ensures GoodLab(l') && Extends(l, l')
  {
    var c := CopyOf(l, n);
    assert GoodSlot(l, n);
    CopyFacts(l, n);
    PassesOnFramed(l, l', n, p, phase, c);
    NewSavedIsGood(l, l', n, p, phase, c);
    if c.source.Some? {
      OwnedExtends(l, l', c.source.value.0);
    }
    assert GoodPersister(l', p);
    FramedKeepsLab(l, l', n);
  }

  lemma ReplaceKeepsLab(l: Lab, l': Lab, n: Name, p: Pid)
    requires GoodLab(l) && ReplacePersister(l, l', n, p)
    ensures GoodLab(l') && Extends(l, l')
  {
    if l.slots[n].saved.Some? {
      NewCopyIsGood(l, l', n, p, Down);
    } else {
      assert GoodSlot(l, n);
      NothingSavedFramed(l, l', n);
      assert GoodSlot(l', n);
      FramedKeepsLab(l, l', n);
    }
  }

  lemma NothingSavedFramed(l: Lab, l': Lab, n: Name)
    requires n in l.slots && l' == l.(slots := l.slots[n := l.slots[n].(phase := Down)])
    ensures Framed(l, l', n)
  {
  }

  lemma PrepareKeepsLab(l: Lab, l': Lab, n: Name, p: Pid)
    requires GoodLab(l) && PreparePersister(l, l', n, p)
    ensures GoodLab(l') && Extends(l, l')
  {
    if l.slots[n].saved.Some? {
      NewCopyIsGood(l, l', n, p, Prepared);
    } else {
      var given := Persister(EMPTY, None, []);
      assert GoodSlot(l, n);
      PassesOnFramed(l, l', n, p, Prepared, given);
      NewSavedIsGood(l, l', n, p, Prepared, given);
      FramedKeepsLab(l, l', n);
    }
  }

  lemma StartKeepsLab(l: Lab, l': Lab, n: Name, i: Inst)
    requires GoodLab(l) && StartInstance(l, l', n, i)
    ensures GoodLab(l') && Extends(l, l')
  {
    assert GoodSlot(l, n);
    StartFramed(l, l', n, i);
    StartedSlot(l, l', n, i);
    assert GoodInstance(l', i) by {
      forall j | j in l.instances ensures l.instances[j].pid != l.slots[n].saved.value {
        assert Owned(l, l.instances[j].pid);
      }
    }
    FramedKeepsLab(l, l', n);
  }

  lemma StartFramed(l: Lab, l': Lab, n: Name, i: Inst)
    requires StartInstance(l, l', n, i) && Passing(l, n)
    ensures Framed(l, l', n)
  {
    forall x | Owned(l', x) ensures Owned(l, x) || x == l.slots[n].saved.value {
      var j :| j in l'.instances && l'.instances[j].pid == x;
      assert j == i || j in l.instances;
    }
  }

  lemma StartedSlot(l: Lab, l': Lab, n: Name, i: Inst)
    requires StartInstance(l, l', n, i) && GoodSlot(l, n)
    ensures GoodSlot(l', n)
  {
  }

  // ---- Every run keeps the invariant ----

  lemma TesterKeepsLab(l: Lab, l': Lab, n: Name, x: nat)
    requires GoodLab(l) && TesterStep(l, l', n, x)
    ensures GoodLab(l') && Extends(l, l')
  {
    if DeleteServer(l, l', n) {
      DeleteKeepsLab(l, l', n);
    } else if ReplacePersister(l, l', n, x) {
      ReplaceKeepsLab(l, l', n, x);
    } else if PreparePersister(l, l', n, x) {
      PrepareKeepsLab(l, l', n, x);
    } else if StartInstance(l, l', n, x) {
      StartKeepsLab(l, l', n, x);
    } else {
      AddKeepsLab(l, l', n);
    }
  }

  lemma LabStepKeeps(w: World, w': World)
    requires Inv(w) && w' == w.(lab := w'.lab) && GoodLab(w'.lab) && Extends(w.lab, w'.lab)
    ensures Inv(w')
  {
    forall r | r in w'.requests ensures GoodRequest(w'.lab, w'.requests[r]) {
      ExtensionKeepsRequest(w.lab, w'.lab, w.requests[r]);
    }
  }

  lemma HandlerSaveKeeps(w: World, w': World, r: Rid, c: Content)
    requires Inv(w) && HandlerSave(w, w', r, c)
    ensures Inv(w')
  {
    var q := w.requests[r];
    SaveKeepsLab(w.lab, w'.lab, q.target.value.1, c);
    forall x | x in w'.requests ensures GoodRequest(w'.lab, w'.requests[x]) {
      ExtensionKeepsRequest(w.lab, w'.lab, w.requests[x]);
    }
  }

  lemma NextKeeps(w: World, w': World)
    requires Inv(w) && Next(w, w')
    ensures Inv(w')
  {
    if w' == w.(ends := w'.ends) {
    } else if n, x :| w' == w.(lab := w'.lab) && TesterStep(w.lab, w'.lab, n, x) {
      TesterKeepsLab(w.lab, w'.lab, n, x);
      LabStepKeeps(w, w');
    } else if i, c :| w' == w.(lab := w'.lab) && Save(w.lab, w'.lab, i, c) {
      SaveKeepsLab(w.lab, w'.lab, i, c);
      LabStepKeeps(w, w');
    } else if r, c :| HandlerSave(w, w', r, c) {
      HandlerSaveKeeps(w, w', r, c);
    } else if r, e :| Send(w, w', r, e) {
      SendKeeps(w, w', r, e);
    } else {
      var r :| RequestStep(w, w', r);
      RequestStepKeeps(w, w', r);
    }
  }

  lemma {:induction false} RunKeeps(run: seq<World>, i: nat)
    requires IsRun(run) && i < |run|
    ensures Inv(run[i])
  {
    if i > 0 {
      RunKeeps(run, i - 1);
      assert StepAt(run, i - 1);
      NextKeeps(run[i - 1], run[i]);
    } else {
      assert forall n :: n in run[0].lab.slots ==> GoodSlot(run[0].lab, n);
    }
  }

  // ---- Consequences ----

  // Save number s of a call answered true, by an instance that was followed by another.
  ghost predicate AnsweredSave(w: World, r: Rid, k: nat, s: nat)
  {
    && r in w.requests && w.requests[r].stage == Answered(true) && s in w.requests[r].saves
    && var q := w.requests[r];
    && q.target.Some? && q.target.value.0 in w.lab.slots
    && k + 1 < |w.lab.slots[q.target.value.0].history|
    && w.lab.slots[q.target.value.0].history[k] == q.target.value.1
  }

  // The next instance started from that save, or from a later one of the same instance.
  ghost predicate PassedDown(w: World, r: Rid, k: nat, s: nat)
    requires AnsweredSave(w, r, k, s)
  {
    var l := w.lab;
    var (n, i) := w.requests[r].target.value;
    var j := l.slots[n].history[k + 1];
    && i in l.instances && j in l.instances
    && l.instances[i].pid in l.persisters && l.instances[j].pid in l.persisters
    && var old' := l.persisters[l.instances[i].pid];
    && var new' := l.persisters[l.instances[j].pid];
    && exists last :: s <= last < |old'.saves| && new'.base == old'.saves[last]
  }

  lemma InvPassesDown(w: World, r: Rid, k: nat, s: nat)
    requires Inv(w) && AnsweredSave(w, r, k, s)
    ensures PassedDown(w, r, k, s)
  {
    var l, q := w.lab, w.requests[r];
    var (n, i) := q.target.value;
    assert GoodRequest(l, q);
    assert GoodSlot(l, n);
    var j := l.slots[n].history[k + 1];
    var p := l.instances[j].pid;
    assert HeirOf(l, p, l.slots[n].history[k + 1 - 1]);
    assert GoodPersister(l, p);
    var last := l.persisters[p].source.value.1 - 1;
    assert s <= last;
    assert l.persisters[p].base == l.persisters[l.instances[i].pid].saves[last];
  }

  // Main result: if a call was answered true, then whatever its handler saved is in the state that the
  // next instance of that server started from, or was superseded there by a later save of the same
  // instance.
  lemma AnsweredSavesSurvive(run: seq<World>, t: nat, r: Rid, k: nat, s: nat)
    requires IsRun(run) && t < |run| && AnsweredSave(run[t], r, k, s)
    ensures PassedDown(run[t], r, k, s)
  {
    RunKeeps(run, t);
    InvPassesDown(run[t], r, k, s);
  }

  // A save reaches the persister of its own instance only, so a late save by an old instance never
  // reaches a newer one; and what an instance started from never changes.
  lemma OnlyTheOwnerWrites(run: seq<World>, t: nat, j: Inst)
    requires IsRun(run) && t + 1 < |run| && j in run[t].lab.instances
    ensures run[t].lab.instances[j].pid in run[t].lab.persisters
    ensures j in run[t + 1].lab.instances && run[t + 1].lab.instances[j] == run[t].lab.instances[j]
    ensures var p := run[t].lab.instances[j].pid;
            var l, l' := run[t].lab, run[t + 1].lab;
            && p in l'.persisters && l'.persisters[p].base == l.persisters[p].base
            && (l'.persisters[p] == l.persisters[p] || exists c :: Save(l, l', j, c))
  {
    RunKeeps(run, t);
    assert StepAt(run, t);
    assert GoodInstance(run[t].lab, j);
    LabSteps(run[t], run[t + 1]);
    var l, l' := run[t].lab, run[t + 1].lab;
    if i, c :| Save(l, l', i, c) {
      assert GoodInstance(l, i);
    } else if n, x :| TesterStep(l, l', n, x) {
      TesterAddsOnly(l, l', n, x, j);
    }
  }

  lemma LabSteps(w: World, w': World)
    requires Next(w, w')
    ensures || w'.lab == w.lab
            || (exists n, x :: TesterStep(w.lab, w'.lab, n, x))
            || (exists i, c :: Save(w.lab, w'.lab, i, c))
  {
  }

  lemma TesterAddsOnly(l: Lab, l': Lab, n: Name, x: nat, j: Inst)
    requires TesterStep(l, l', n, x) && j in l.instances && l.instances[j].pid in l.persisters
    ensures j in l'.instances && l'.instances[j] == l.instances[j]
    ensures l.instances[j].pid in l'.persisters && l'.persisters[l.instances[j].pid] == l.persisters[l.instances[j].pid]
  {
  }

  // The handler of a request runs at most once and at most one reply is sent; a true reply means that
  // it ran exactly once, to the end.
  lemma AtMostOnce(run: seq<World>, t: nat, r: Rid)
    requires IsRun(run) && t < |run| && r in run[t].requests
    ensures run[t].requests[r].ran <= 1 && run[t].requests[r].replies <= 1
    ensures run[t].requests[r].stage == Answered(true) ==>
              run[t].requests[r].ran == 1 && run[t].requests[r].replies == 1 && run[t].requests[r].handler == Returned
  {
    RunKeeps(run, t);
    assert GoodRequest(run[t].lab, run[t].requests[r]);
  }

  // At this moment the handler is done, its end is enabled and its instance is still the registered one.
  ghost predicate Witness(w: World, r: Rid, target: Option<(Name, Inst)>)
  {
    && r in w.requests && target.Some? && w.requests[r].target == target && w.requests[r].handler == Returned
    && w.requests[r].end in w.ends.enabled && w.ends.enabled[w.requests[r].end]
    && target.value.0 in w.lab.servers && w.lab.servers[target.value.0] == target.value.1
  }

  ghost predicate Vindicated(q: Request)
  {
    q.stage == Passed || q.stage == Answered(true)
  }

  // A true reply goes back to such a moment.
  lemma {:induction false} TrueReplyWasRegistered(run: seq<World>, t: nat, r: Rid)
    requires IsRun(run) && t < |run| && r in run[t].requests && Vindicated(run[t].requests[r])
    ensures exists u :: 0 <= u <= t && Witness(run[u], r, run[t].requests[r].target)
  {
    if t > 0 {
      RunKeeps(run, t - 1);
      assert StepAt(run, t - 1);
      var w, w' := run[t - 1], run[t];
      VindicatedStep(w, w', r);
      if Vindicated(w.requests[r]) {
        TrueReplyWasRegistered(run, t - 1, r);
        var u :| 0 <= u <= t - 1 && Witness(run[u], r, w.requests[r].target);
      } else {
        assert Witness(run[t - 1], r, w'.requests[r].target);
      }
    }
  }

  // What a step may make of one request.
  ghost predicate Changed(w: World, q: Request, q': Request)
  {
    || q' == q || Moves(w.ends, w.lab.servers, q, q')
    || (q.handler == Running && (q' == q.(handler := Returned) || q' == q.(saves := q'.saves)))
  }

  lemma RequestChange(w: World, w': World, r: Rid)
    requires Next(w, w') && r in w'.requests
    ensures if r in w.requests then Changed(w, w.requests[r], w'.requests[r])
            else w'.requests[r].stage == Queued && w'.requests[r].target == None
  {
  }

  lemma VindicatedStep(w: World, w': World, r: Rid)
    requires Inv(w) && Next(w, w') && r in w'.requests && Vindicated(w'.requests[r])
    ensures r in w.requests && w.requests[r].target == w'.requests[r].target
    ensures Vindicated(w.requests[r]) || Witness(w, r, w'.requests[r].target)
  {
    RequestChange(w, w', r);
    VindicatedChange(w, r, w'.requests[r]);
  }

  lemma VindicatedChange(w: World, r: Rid, q': Request)
    requires r in w.requests && GoodRequest(w.lab, w.requests[r])
    requires Changed(w, w.requests[r], q') && Vindicated(q')
    ensures w.requests[r].target == q'.target && (Vindicated(w.requests[r]) || Witness(w, r, q'.target))
  {
  }

  // ---- Dispatch ----

  // At this moment the end leads to instance i, registered as n.
  ghost predicate LeadsTo(w: World, e: End, n: Name, i: Inst)
  {
    && e in w.ends.enabled && w.ends.enabled[e]
    && e in w.ends.connections && w.ends.connections[e] == n
    && n in w.lab.servers && w.lab.servers[n] == i
  }

  // A request that is looked up is passed on to exactly the instance its end leads to at that moment,
  // and fails if there is none.
  lemma DispatchIsExact(w: World, q: Request, q': Request)
    requires q.stage == Queued && Moves(w.ends, w.lab.servers, q, q')
    ensures q'.stage == Found <==> exists n, i :: LeadsTo(w, q.end, n, i)
    ensures q'.stage == Found ==> q'.target.Some? && LeadsTo(w, q.end, q'.target.value.0, q'.target.value.1)
    ensures q'.stage == Found || q'.stage == Failed
  {
    if n, i :| LeadsTo(w, q.end, n, i) {
      assert ReadEnd(w.ends, w.lab.servers, q.end) == Some((n, i));
    } else if q'.stage == Found {
      assert LeadsTo(w, q.end, q'.target.value.0, q'.target.value.1);
    }
  }

  lemma TargetStep(w: World, w': World, r: Rid)
    requires Inv(w) && Next(w, w') && r in w'.requests && w'.requests[r].target.Some?
    ensures r in w.requests && w.requests[r].end == w'.requests[r].end
    ensures || w.requests[r].target == w'.requests[r].target
            || LeadsTo(w, w'.requests[r].end, w'.requests[r].target.value.0, w'.requests[r].target.value.1)
  {
    RequestChange(w, w', r);
    TargetChange(w, w.requests[r], w'.requests[r]);
  }

  lemma TargetChange(w: World, q: Request, q': Request)
    requires Changed(w, q, q')
    ensures q'.end == q.end
    ensures q'.target == q.target ||
            (q'.target.Some? && LeadsTo(w, q.end, q'.target.value.0, q'.target.value.1))
  {
  }

  // Main result: a handler that has been started goes back to a moment when its request's end was enabled
  // and connected to that server, and that instance was registered.
  lemma {:induction false} HandlerWasReachable(run: seq<World>, t: nat, r: Rid)
    requires IsRun(run) && t < |run| && r in run[t].requests && run[t].requests[r].handler != NotStarted
    ensures run[t].requests[r].target.Some?
    ensures var (n, i) := run[t].requests[r].target.value;
            exists u :: 0 <= u < t && LeadsTo(run[u], run[t].requests[r].end, n, i)
  {
    RunKeeps(run, t);
    assert GoodRequest(run[t].lab, run[t].requests[r]);
    TargetWasReachable(run, t, r);
  }

  lemma {:induction false} TargetWasReachable(run: seq<World>, t: nat, r: Rid)
    requires IsRun(run) && t < |run| && r in run[t].requests && run[t].requests[r].target.Some?
    ensures var (n, i) := run[t].requests[r].target.value;
            exists u :: 0 <= u < t && LeadsTo(run[u], run[t].requests[r].end, n, i)
  {
    if t > 0 {
      var (n, i) := run[t].requests[r].target.value;
      var e := run[t].requests[r].end;
      RunKeeps(run, t - 1);
      assert StepAt(run, t - 1);
      TargetStep(run[t - 1], run[t], r);
      if run[t - 1].requests[r].target == run[t].requests[r].target {
        TargetWasReachable(run, t - 1, r);
        var u :| 0 <= u < t - 1 && LeadsTo(run[u], e, n, i);
      } else {
        assert LeadsTo(run[t - 1], e, n, i);
      }
    }
  }

  // ---- The first instance of a server ----

  // Before the first instance exists nothing has been saved for it but an empty persister; afterwards the
  // first instance has started from empty content.
  ghost predicate StartsEmpty(l: Lab, n: Name)
    requires n in l.slots
  {
    var s := l.slots[n];
    if s.history == [] then
      s.saved.Some? ==>
        && s.phase == Prepared && s.saved.value in l.persisters
        && l.persisters[s.saved.value].base == Content([], [])
    else
      && s.history[0] in l.instances && l.instances[s.history[0]].pid in l.persisters
      && l.persisters[l.instances[s.history[0]].pid].base == Content([], [])
  }

  lemma PassingStartsEmpty(l: Lab, l': Lab, m: Name, p: Pid, n: Name)
    requires ReplacePersister(l, l', m, p) || PreparePersister(l, l', m, p)
    requires n in l.slots && GoodSlot(l, n) && StartsEmpty(l, n)
    ensures n in l'.slots && StartsEmpty(l', n)
  {
  }

  lemma OtherStartsEmpty(l: Lab, l': Lab, m: Name, i: Inst, n: Name)
    requires DeleteServer(l, l', m) || StartInstance(l, l', m, i) || AddServer(l, l', m)
    requires n in l.slots && GoodSlot(l, n) && StartsEmpty(l, n)
    ensures n in l'.slots && StartsEmpty(l', n)
  {
  }

  lemma TesterStartsEmpty(l: Lab, l': Lab, m: Name, x: nat, n: Name)
    requires TesterStep(l, l', m, x) && n in l.slots && GoodSlot(l, n) && StartsEmpty(l, n)
    ensures n in l'.slots && StartsEmpty(l', n)
  {
    if ReplacePersister(l, l', m, x) || PreparePersister(l, l', m, x) {
      PassingStartsEmpty(l, l', m, x, n);
    } else {
      OtherStartsEmpty(l, l', m, x, n);
    }
  }

  lemma SaveStartsEmpty(l: Lab, l': Lab, i: Inst, c: Content, n: Name)
    requires Save(l, l', i, c) && n in l.slots && StartsEmpty(l, n)
    ensures n in l'.slots && StartsEmpty(l', n)
  {
  }

  lemma {:induction false} FirstInstanceStartsEmpty(run: seq<World>, t: nat, n: Name)
    requires IsRun(run) && t < |run| && n in run[0].lab.slots
    ensures n in run[t].lab.slots && StartsEmpty(run[t].lab, n)
  {
    if t > 0 {
      FirstInstanceStartsEmpty(run, t - 1, n);
      RunKeeps(run, t - 1);
      assert StepAt(run, t - 1);
      LabSteps(run[t - 1], run[t]);
      var l, l' := run[t - 1].lab, run[t].lab;
      if m, x :| TesterStep(l, l', m, x) {
        TesterStartsEmpty(l, l', m, x, n);
      } else if i, c :| Save(l, l', i, c) {
        SaveStartsEmpty(l, l', i, c, n);
      }
    }
  }
}
