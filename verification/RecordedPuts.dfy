// The put clients with their operations recorded: the two state machines side by side, coupled where an
// operation takes effect.
module RecordedPuts {
  import opened Clients
  import opened KvStep
  import opened KvModel
  import P = PutClients
  import O = OpLog

  // How an entry is written as a value.
  type Encoding = P.EntryV -> string

  datatype World = World(puts: P.World, ops: O.World)

  ghost predicate Init(w: World)
  {
    && P.Init(w.puts) && O.Init(w.ops)
    && forall x :: x in w.puts.ka ==> w.puts.store[x].version == 0
  }

  // ---- The coupling ----

  // The operation a client has to call next: a put of its entry, or a get of the key it has put to.
  ghost predicate Wants(encode: Encoding, w: P.World, c: nat, input: Input)
  {
    && c < |w.clients|
    && var k := w.clients[c];
    && match k.phase
       case Busy(x) => x in k.local && input == KvInput(1, x, encode(P.EntryV(c, k.local[x])), k.local[x])
       case Answered(x, _) => input == KvInput(0, x, "", 0)
       case _ => false
  }

  // What the operation that takes effect at this step of client c answers.
  ghost predicate Answers(encode: Encoding, w: P.World, w': P.World, c: nat, output: Output)
    requires P.ClientStep(w, w', c)
  {
    match w.clients[c].phase
    case Busy(x) => output == KvOutput("", 0, w'.clients[c].phase.err)
    case Answered(x, _) => output == KvOutput(encode(w.store[x].value), w.store[x].version, "OK")
    case _ => false
  }

  ghost predicate Performs(encode: Encoding, w: World, w': World, c: nat)
  {
    && P.ClientStep(w.puts, w'.puts, c)
    && exists output :: Answers(encode, w.puts, w'.puts, c, output) && O.Perform(w.ops, w'.ops, c, output)
  }

  // A client looks at the done signal and chooses a key only when its last operation has returned.
  ghost predicate Decides(w: World, w': World, c: nat)
  {
    && P.ClientStep(w.puts, w'.puts, c) && w.puts.clients[c].phase == Head
    && c !in w.ops.active && w'.ops == w.ops
  }

  ghost predicate Calls(encode: Encoding, w: World, w': World, c: nat, input: Input)
  {
    w'.puts == w.puts && Wants(encode, w.puts, c, input) && O.Invoke(w.ops, w'.ops, c, input)
  }

  ghost predicate Next(encode: Encoding, w: World, w': World)
  {
    || (w'.puts == w.puts && O.Tick(w.ops, w'.ops))
    || (exists c, input :: Calls(encode, w, w', c, input))
    || (exists c :: Performs(encode, w, w', c))
    || (w'.puts == w.puts && exists c :: O.Return(w.ops, w'.ops, c))
    || (exists c :: Decides(w, w', c))
  }

  ghost predicate StepAt(encode: Encoding, run: seq<World>, i: nat)
    requires i < |run| - 1
  {
    Next(encode, run[i], run[i + 1])
  }

  ghost predicate IsRun(encode: Encoding, run: seq<World>)
  {
    run != [] && Init(run[0]) && forall i: nat :: i < |run| - 1 ==> StepAt(encode, run, i)
  }

  // ---- The invariant ----

  ghost predicate SameKey(encode: Encoding, st: KvState<P.EntryV>, recorded: KvState<string>)
  {
    recorded.version == st.version && (st.version > 0 ==> recorded.value == encode(st.value))
  }

  // Both machines have the same store, and whatever has been called is what the client wants.
  ghost predicate Agree(encode: Encoding, w: World)
  {
    && (forall x :: x in w.puts.ka ==> x in w.puts.store && SameKey(encode, w.puts.store[x], Lookup(w.ops.store, x)))
    && (forall c :: c in w.ops.active && w.ops.active[c].Invoked? ==>
          Wants(encode, w.puts, c, w.ops.active[c].input))
  }

  ghost predicate Inv(encode: Encoding, w: World)
  {
    P.Inv(w.puts, 0) && Agree(encode, w)
  }

  lemma PerformsKeepsAgree(encode: Encoding, w: World, w': World, c: nat)
    requires Inv(encode, w) && Performs(encode, w, w', c)
    ensures Agree(encode, w')
  {
    var output :| Answers(encode, w.puts, w'.puts, c, output) && O.Perform(w.ops, w'.ops, c, output);
    var k := w.puts.clients[c];
    assert P.GoodClient(w.puts.ka, w.puts.store, c, k);
    assert Wants(encode, w.puts, c, w.ops.active[c].input);
    forall d | d in w'.ops.active && w'.ops.active[d].Invoked?
      ensures Wants(encode, w'.puts, d, w'.ops.active[d].input)
    {
      assert d != c && w'.ops.active[d] == w.ops.active[d];
    }
  }

  lemma NextKeeps(encode: Encoding, w: World, w': World)
    requires Inv(encode, w) && Next(encode, w, w')
    ensures Inv(encode, w')
  {
    if c :| Performs(encode, w, w', c) {
      P.StepKeeps(w.puts, w'.puts, c, 0);
      PerformsKeepsAgree(encode, w, w', c);
    } else if c :| Decides(w, w', c) {
      P.StepKeeps(w.puts, w'.puts, c, 0);
      forall d | d in w'.ops.active && w'.ops.active[d].Invoked?
        ensures Wants(encode, w'.puts, d, w'.ops.active[d].input)
      {
        assert d != c;
      }
    }
  }

  lemma InitHolds(encode: Encoding, w: World)
    requires Init(w)
    ensures Inv(encode, w)
  {
    P.RunKeeps([w.puts], 0);
    NoVersions(w.puts.store, w.puts.ka);
  }

  lemma {:induction false} NoVersions(store: P.Store, ka: seq<string>)
    requires forall x :: x in ka ==> x in store && store[x].version == 0
    ensures P.Total(store, ka) == 0
  {
    if ka != [] {
      NoVersions(store, ka[..|ka| - 1]);
    }
  }

  lemma {:induction false} RunKeeps(encode: Encoding, run: seq<World>, i: nat)
    requires IsRun(encode, run) && i < |run|
    ensures Inv(encode, run[i])
  {
    if i == 0 {
      InitHolds(encode, run[0]);
    } else {
      RunKeeps(encode, run, i - 1);
      assert StepAt(encode, run, i - 1);
      NextKeeps(encode, run[i - 1], run[i]);
    }
  }

  // Recording holds no client back: the step of any client whose operation has been called can be taken.
  lemma RecordingIsFree(encode: Encoding, w: World, puts: P.World, c: nat) returns (w': World)
    requires Inv(encode, w) && P.ClientStep(w.puts, puts, c) && w.puts.clients[c].phase != Head
    requires c in w.ops.active && w.ops.active[c].Invoked?
    ensures w'.puts == puts && Performs(encode, w, w', c)
  {
    var k := w.puts.clients[c];
    assert P.GoodClient(w.puts.ka, w.puts.store, c, k);
    var input := w.ops.active[c].input;
    assert Wants(encode, w.puts, c, input);
    var output := if k.phase.Busy? then KvOutput("", 0, puts.clients[c].phase.err)
                  else KvOutput(encode(w.puts.store[k.phase.b].value), w.puts.store[k.phase.b].version, "OK");
    var next := Step(Lookup(w.ops.store, input.key), input, output).1;
    var ops := w.ops.(store := w.ops.store[input.key := next],
                      active := w.ops.active[c := O.Performed(|w.ops.effects|)],
                      effects := w.ops.effects +
                                 [O.Effect(input, output, w.ops.active[c].call, w.ops.now, O.Pending)]);
    w' := World(puts, ops);
    assert Answers(encode, w.puts, puts, c, output);
    assert O.Perform(w.ops, ops, c, output);
  }

  // ---- The recorded history ----

  ghost function Recorded(run: seq<World>): seq<O.World>
  {
    seq(|run|, i requires 0 <= i < |run| => run[i].ops)
  }

  lemma RecordedStep(encode: Encoding, w: World, w': World)
    requires Next(encode, w, w')
    ensures O.Next(w.ops, w'.ops)
  {
    if c :| Performs(encode, w, w', c) {
      var output :| Answers(encode, w.puts, w'.puts, c, output) && O.Perform(w.ops, w'.ops, c, output);
    } else if c, input :| Calls(encode, w, w', c, input) {
      assert O.Invoke(w.ops, w'.ops, c, input);
    } else if c :| Decides(w, w', c) {
      assert O.Tick(w.ops, w'.ops);
    }
  }

  lemma RecordedIsRun(encode: Encoding, run: seq<World>)
    requires IsRun(encode, run)
    ensures O.IsRun(Recorded(run))
  {
    var ops := Recorded(run);
    forall i: nat | i < |ops| - 1 ensures O.StepAt(ops, i) {
      assert StepAt(encode, run, i);
      RecordedStep(encode, run[i], run[i + 1]);
    }
  }

  // Main result: in every run of any number of put clients, on any keys, whenever no operation is between
  // its effect and its return, the history they have recorded is linearizable, so is each part of it that
  // the check looks at, and the versions lie between the certain and the possible puts.
  lemma EveryRecordedRunPasses(encode: Encoding, run: seq<World>, i: nat, keys: seq<string>,
                               parts: seq<seq<Operation>>)
    requires IsRun(encode, run) && i < |run| && O.Settled(run[i].ops)
    requires IsPartition(run[i].ops.log, keys, parts)
    ensures StoreLinearizable(run[i].ops.log)
    ensures forall p :: 0 <= p < |parts| ==> Linearizable(parts[p])
    ensures P.Bounded(run[i].puts, 0)
  {
    RecordedIsRun(encode, run);
    O.EveryLogPasses(Recorded(run), i, keys, parts);
    RunKeeps(encode, run, i);
  }

  // ---- A reply that is lost ----

  ghost function Last(run: seq<World>): World
    requires run != []
  {
    run[|run| - 1]
  }

  lemma OneMore(encode: Encoding, run: seq<World>, w: World) returns (longer: seq<World>)
    requires IsRun(encode, run) && Next(encode, Last(run), w)
    ensures longer == run + [w] && IsRun(encode, longer)
  {
    longer := run + [w];
    forall i: nat | i < |longer| - 1 ensures StepAt(encode, longer, i) {
      if i < |run| - 1 {
        assert StepAt(encode, run, i);
      }
    }
  }

  // One client at work on the operation it wants: call and effect.
  lemma CallAndPerform(encode: Encoding, run: seq<World>, puts: P.World, c: nat, input: Input, output: Output)
    returns (longer: seq<World>)
    requires IsRun(encode, run) && c !in Last(run).ops.active && Wants(encode, Last(run).puts, c, input)
    requires P.ClientStep(Last(run).puts, puts, c) && Answers(encode, Last(run).puts, puts, c, output)
    requires Step(Lookup(Last(run).ops.store, input.key), input, output).0
    ensures var ops := Last(run).ops;
            var next := Step(Lookup(ops.store, input.key), input, output).1;
            && IsRun(encode, longer)
            && Last(longer) == World(puts, ops.(store := ops.store[input.key := next],
                                                active := ops.active[c := O.Performed(|ops.effects|)],
                                                effects := ops.effects +
                                                           [O.Effect(input, output, ops.now, ops.now, O.Pending)]))
  {
    var w := Last(run);
    var next := Step(Lookup(w.ops.store, input.key), input, output).1;
    var ops1 := w.ops.(active := w.ops.active[c := O.Invoked(input, w.ops.now)]);
    assert Calls(encode, w, World(w.puts, ops1), c, input);
    longer := OneMore(encode, run, World(w.puts, ops1));
    var ops2 := ops1.(store := w.ops.store[input.key := next],
                      active := ops1.active[c := O.Performed(|w.ops.effects|)],
                      effects := w.ops.effects + [O.Effect(input, output, w.ops.now, w.ops.now, O.Pending)]);
    assert O.Perform(ops1, ops2, c, output);
    assert Performs(encode, World(w.puts, ops1), World(puts, ops2), c);
    longer := OneMore(encode, longer, World(puts, ops2));
    assert ops1.active[c := O.Performed(|w.ops.effects|)] == w.ops.active[c := O.Performed(|w.ops.effects|)];
  }

  // The return, after which time passes.
  lemma ReturnAndTick(encode: Encoding, run: seq<World>, c: nat) returns (longer: seq<World>)
    requires IsRun(encode, run) && c in Last(run).ops.active && Last(run).ops.active[c].Performed?
    requires Last(run).ops.active[c].n < |Last(run).ops.effects|
    ensures IsRun(encode, longer)
    ensures var ops, ops' := Last(run).ops, Last(longer).ops;
            var e := ops.effects[ops.active[c].n];
            && Last(longer).puts == Last(run).puts
            && ops'.active == ops.active - {c} && ops'.store == ops.store && ops'.now == ops.now + 1
            && ops'.log == ops.log + [Operation(e.input, e.output, e.call, ops.now)]
  {
    var w := Last(run);
    var n := w.ops.active[c].n;
    var e := w.ops.effects[n];
    var ops1 := w.ops.(active := w.ops.active - {c},
                       log := w.ops.log + [Operation(e.input, e.output, e.call, w.ops.now)],
                       effects := w.ops.effects[n := e.(ret := O.At(w.ops.now))]);
    assert O.Return(w.ops, ops1, c);
    longer := OneMore(encode, run, World(w.puts, ops1));
    longer := OneMore(encode, longer, World(w.puts, ops1.(now := ops1.now + 1)));
  }

  lemma Operate(encode: Encoding, run: seq<World>, puts: P.World, c: nat, input: Input, output: Output)
    returns (longer: seq<World>)
    requires IsRun(encode, run) && c !in Last(run).ops.active && Wants(encode, Last(run).puts, c, input)
    requires P.ClientStep(Last(run).puts, puts, c) && Answers(encode, Last(run).puts, puts, c, output)
    requires Step(Lookup(Last(run).ops.store, input.key), input, output).0
    ensures IsRun(encode, longer) && Last(longer).puts == puts && Last(longer).ops.active == Last(run).ops.active
    ensures Last(longer).ops.store ==
            Last(run).ops.store[input.key := Step(Lookup(Last(run).ops.store, input.key), input, output).1]
    ensures var now := Last(run).ops.now;
            && Last(longer).ops.log == Last(run).ops.log + [Operation(input, output, now, now)]
            && Last(longer).ops.now == now + 1
  {
    longer := CallAndPerform(encode, run, puts, c, input, output);
    longer := ReturnAndTick(encode, longer, c);
  }

  // A put that takes effect while its reply is lost: the client is told ErrMaybe, reads its own value, and
  // the history it records is linearizable.
  lemma LostReplyRun(encode: Encoding, k: string) returns (run: seq<World>)
    ensures IsRun(encode, run) && |Last(run).puts.clients| == 1
    ensures Last(run).puts.clients[0].res == ClntRes(0, 1)
    ensures var value := encode(P.EntryV(0, 0));
            Last(run).ops.log == [Operation(KvInput(1, k, value, 0), KvOutput("", 0, "ErrMaybe"), 0, 0),
                                  Operation(KvInput(0, k, "", 0), KvOutput(value, 1, "OK"), 1, 1)]
    ensures StoreLinearizable(Last(run).ops.log) && Linearizable(Last(run).ops.log)
  {
    var none: P.Putter := Client(map[k := 0], ClntRes(0, 0), Head);
    var p0 := P.World([k], map[k := KvState(P.EntryV(0, 0), 0)], [none]);
    var o0 := O.World(map[], map[], 0, [], []);
    run := [World(p0, o0)];
    assert IsRun(encode, run) by {
      assert P.Starting([k], none);
      assert Init(run[0]);
    }
    var p1 := p0.(clients := [none.(phase := Busy(k))]);
    assert P.ClientStep(p0, p1, 0) by {
      assert k in p0.ka && p0.clients[0 := p1.clients[0]] == p1.clients;
    }
    assert Decides(World(p0, o0), World(p1, o0), 0);
    run := OneMore(encode, run, World(p1, o0));
    run := LostPut(encode, run, k);
    run := ReadAfterLoss(encode, run, k);
    LostReplyPasses(encode, run, k);
  }

  lemma LostPut(encode: Encoding, run: seq<World>, k: string) returns (longer: seq<World>)
    requires IsRun(encode, run)
    requires Last(run).puts == P.World([k], map[k := KvState(P.EntryV(0, 0), 0)],
                                       [Client(map[k := 0], ClntRes(0, 0), Busy(k))])
    requires Last(run).ops == O.World(map[], map[], 0, [], [])
    ensures IsRun(encode, longer)
    ensures Last(longer).puts == P.World([k], map[k := KvState(P.EntryV(0, 0), 1)],
                                         [Client(map[k := 0], ClntRes(0, 0), Answered(k, "ErrMaybe"))])
    ensures var value := encode(P.EntryV(0, 0));
            && Last(longer).ops.active == map[] && Last(longer).ops.now == 1
            && Last(longer).ops.store == map[k := KvState(value, 1)]
            && Last(longer).ops.log ==
               [Operation(KvInput(1, k, value, 0), KvOutput("", 0, "ErrMaybe"), 0, 0)]
  {
    var puts := Last(run).puts;
    var value := encode(P.EntryV(0, 0));
    var after := P.World([k], map[k := KvState(P.EntryV(0, 0), 1)],
                         [Client(map[k := 0], ClntRes(0, 0), Answered(k, "ErrMaybe"))]);
    PutStepExactly(puts.store[k], k, P.EntryV(0, 0), 0, "ErrMaybe", after.store[k]);
    assert P.ClientStep(puts, after, 0) by {
      assert puts.clients[0 := after.clients[0]] == after.clients;
      assert puts.store[k := after.store[k]] == after.store;
    }
    var input: Input, output: Output := KvInput(1, k, value, 0), KvOutput("", 0, "ErrMaybe");
    PutStepExactly(INITIAL, k, value, 0, "ErrMaybe", KvState(value, 1));
    longer := Operate(encode, run, after, 0, input, output);
  }

  lemma ReadAfterLoss(encode: Encoding, run: seq<World>, k: string) returns (longer: seq<World>)
    requires IsRun(encode, run)
    requires Last(run).puts == P.World([k], map[k := KvState(P.EntryV(0, 0), 1)],
                                       [Client(map[k := 0], ClntRes(0, 0), Answered(k, "ErrMaybe"))])
    requires Last(run).ops.active == map[] && Last(run).ops.now == 1
    requires Last(run).ops.store == map[k := KvState(encode(P.EntryV(0, 0)), 1)]
    ensures IsRun(encode, longer) && Last(longer).ops.active == map[]
    ensures |Last(longer).puts.clients| == 1 && Last(longer).puts.clients[0].res == ClntRes(0, 1)
    ensures Last(longer).ops.log ==
            Last(run).ops.log +
            [Operation(KvInput(0, k, "", 0), KvOutput(encode(P.EntryV(0, 0)), 1, "OK"), 1, 1)]
  {
    var puts := Last(run).puts;
    var k' := P.AfterRead(puts.clients[0], k, "ErrMaybe", 1);
    var after := puts.(clients := puts.clients[0 := k']);
    GetStepExactly(puts.store[k], k, P.EntryV(0, 0), 1);
    assert P.ClientStep(puts, after, 0);
    var input: Input, output: Output := KvInput(0, k, "", 0), KvOutput(encode(P.EntryV(0, 0)), 1, "OK");
    longer := Operate(encode, run, after, 0, input, output);
  }

  lemma LostReplyPasses(encode: Encoding, run: seq<World>, k: string)
    requires IsRun(encode, run) && Last(run).ops.active == map[]
    requires Last(run).ops.log != [] && forall i :: 0 <= i < |Last(run).ops.log| ==> Last(run).ops.log[i].input.key == k
    ensures StoreLinearizable(Last(run).ops.log) && Linearizable(Last(run).ops.log)
  {
    var log := Last(run).ops.log;
    ProjectOwn(log, k, k);
    assert IsPartition(log, [k], [log]);
    EveryRecordedRunPasses(encode, run, |run| - 1, [k], [log]);
    assert [log][0] == log;
  }
}
