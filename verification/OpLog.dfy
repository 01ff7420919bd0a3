// The log of client operations as it is recorded: every operation is called, takes effect and returns,
// in this order and with anything else in between, and is logged with both times when it returns.
module OpLog {
  import opened KvStep
  import opened KvModel

  datatype Time = Pending | At(time: int)

  // An operation that has taken effect, perhaps not returned.
  datatype Effect = Effect(input: Input, output: Output, call: int, at: int, ret: Time)

  // What a client is doing, unless it is idle.
  datatype Activity =
    | Invoked(input: Input, call: int)
    | Performed(n: nat)                 // its operation is the n-th to have taken effect

  datatype World = World(
    store: Store, active: map<nat, Activity>, now: int, log: seq<Operation>, effects: seq<Effect>)

  ghost predicate Init(w: World)
  {
    w.store == map[] && w.active == map[] && w.log == [] && w.effects == []
  }

  // ---- The steps ----

  ghost predicate Tick(w: World, w': World)
  {
    w'.now >= w.now && w' == w.(now := w'.now)
  }

  ghost predicate Invoke(w: World, w': World, c: nat, input: Input)
  {
    c !in w.active && w' == w.(active := w.active[c := Invoked(input, w.now)])
  }

  ghost predicate Perform(w: World, w': World, c: nat, output: Output)
  {
    && c in w.active && w.active[c].Invoked?
    && var input := w.active[c].input;
    && var (ok, next) := Step(Lookup(w.store, input.key), input, output);
    && ok
    && w' == w.(store := w.store[input.key := next],
                active := w.active[c := Performed(|w.effects|)],
                effects := w.effects + [Effect(input, output, w.active[c].call, w.now, Pending)])
  }

  ghost predicate Return(w: World, w': World, c: nat)
  {
    && c in w.active && w.active[c].Performed? && w.active[c].n < |w.effects|
    && var n := w.active[c].n;
    && var e := w.effects[n];
    && w' == w.(active := w.active - {c},
                log := w.log + [Operation(e.input, e.output, e.call, w.now)],
                effects := w.effects[n := e.(ret := At(w.now))])
  }

  ghost predicate Next(w: World, w': World)
  {
    || Tick(w, w')
    || (exists c, input :: Invoke(w, w', c, input))
    || (exists c, output :: Perform(w, w', c, output))
    || (exists c :: Return(w, w', c))
  }

  ghost predicate StepAt(run: seq<World>, i: nat)
    requires i < |run| - 1
  {
    Next(run[i], run[i + 1])
  }

  ghost predicate IsRun(run: seq<World>)
  {
    run != [] && Init(run[0]) && forall i: nat :: i < |run| - 1 ==> StepAt(run, i)
  }

  // ---- The operations in the order of their effects ----

  // An operation that has not returned is given the time of its effect for a return.
  function AsOperation(e: Effect): Operation
  {
    Operation(e.input, e.output, e.call, if e.ret.At? then e.ret.time else e.at)
  }

  function Ordered(effects: seq<Effect>): seq<Operation>
  {
    seq(|effects|, i requires 0 <= i < |effects| => AsOperation(effects[i]))
  }

  // How often operation o has returned.
  function Returned(effects: seq<Effect>, o: Operation): nat
  {
    if effects == [] then 0
    else
      var n := |effects| - 1;
      Returned(effects[..n], o) + if effects[n].ret.At? && AsOperation(effects[n]) == o then 1 else 0
  }

  lemma ReturnedAppend(effects: seq<Effect>, e: Effect, o: Operation)
    requires e.ret == Pending
    ensures Returned(effects + [e], o) == Returned(effects, o)
  {
    assert (effects + [e])[..|effects|] == effects;
  }

  lemma {:induction false} ReturnedUpdate(effects: seq<Effect>, n: nat, t: int, o: Operation)
    requires n < |effects| && effects[n].ret == Pending
    ensures var e := effects[n].(ret := At(t));
            Returned(effects[n := e], o) == Returned(effects, o) + if AsOperation(e) == o then 1 else 0
  {
    var e := effects[n].(ret := At(t));
    var last := |effects| - 1;
    if n == last {
      assert effects[n := e][..last] == effects[..last];
    } else {
      ReturnedUpdate(effects[..last], n, t, o);
      assert effects[n := e][..last] == effects[..last][n := e];
    }
  }

  lemma {:induction false} AllReturned(effects: seq<Effect>, o: Operation)
    requires forall i :: 0 <= i < |effects| ==> effects[i].ret.At?
    ensures Returned(effects, o) == multiset(Ordered(effects))[o]
  {
    if effects != [] {
      var n := |effects| - 1;
      AllReturned(effects[..n], o);
      assert Ordered(effects) == Ordered(effects[..n]) + [AsOperation(effects[n])];
    }
  }

  // ---- Legality in the order of effects ----

  // The store after a sequence of operations.
  function After(store: Store, lin: seq<Operation>): Store
    decreases lin
  {
    if lin == [] then store
    else
      var k := lin[0].input.key;
      After(store[k := Step(Lookup(store, k), lin[0].input, lin[0].output).1], lin[1..])
  }

  lemma {:induction false} LegalOneMore(store: Store, lin: seq<Operation>, o: Operation)
    requires StoreLegal(store, lin)
    ensures var (ok, next) := Step(Lookup(After(store, lin), o.input.key), o.input, o.output);
            && (StoreLegal(store, lin + [o]) <==> ok)
            && After(store, lin + [o]) == After(store, lin)[o.input.key := next]
    decreases lin
  {
    if lin == [] {
      assert lin + [o] == [o];
    } else {
      var k := lin[0].input.key;
      LegalOneMore(store[k := Step(Lookup(store, k), lin[0].input, lin[0].output).1], lin[1..], o);
      assert (lin + [o])[1..] == lin[1..] + [o];
    }
  }

  // The times do not matter.
  lemma {:induction false} LegalIgnoresTimes(store: Store, a: seq<Operation>, b: seq<Operation>)
    requires |a| == |b| && StoreLegal(store, a)
    requires forall i :: 0 <= i < |a| ==> a[i].input == b[i].input && a[i].output == b[i].output
    ensures StoreLegal(store, b) && After(store, b) == After(store, a)
    decreases a
  {
    if a != [] {
      var k := a[0].input.key;
      LegalIgnoresTimes(store[k := Step(Lookup(store, k), a[0].input, a[0].output).1], a[1..], b[1..]);
    }
  }

  // ---- The invariant ----

  ghost predicate Timely(effects: seq<Effect>, now: int)
  {
    && (forall i :: 0 <= i < |effects| ==> effects[i].call <= effects[i].at <= now)
    && (forall i :: 0 <= i < |effects| && effects[i].ret.At? ==> effects[i].at <= effects[i].ret.time)
    && (forall i, j :: 0 <= i < j < |effects| ==> effects[i].at <= effects[j].at)
  }

  ghost predicate GoodActivity(w: World, c: nat)
    requires c in w.active
  {
    match w.active[c]
    case Invoked(_, call) => call <= w.now
    case Performed(n) =>
      && n < |w.effects| && w.effects[n].ret == Pending
      && forall d :: d in w.active && d != c ==> w.active[d] != Performed(n)
  }

  ghost predicate Awaited(w: World, n: nat)
  {
    exists c :: c in w.active && w.active[c] == Performed(n)
  }

  ghost predicate Active(w: World)
  {
    && (forall c :: c in w.active ==> GoodActivity(w, c))
    && (forall n: nat :: n < |w.effects| && w.effects[n].ret == Pending ==> Awaited(w, n))
  }

  ghost predicate Legitimate(w: World)
  {
    StoreLegal(map[], Ordered(w.effects)) && w.store == After(map[], Ordered(w.effects))
  }

  ghost predicate Logged(w: World)
  {
    forall o :: multiset(w.log)[o] == Returned(w.effects, o)
  }

  ghost predicate Inv(w: World)
  {
    && Timely(w.effects, w.now) && Active(w) && Legitimate(w)
    && Logged(w)
  }

  lemma InvokeKeeps(w: World, w': World, c: nat, input: Input)
    requires Inv(w) && Invoke(w, w', c, input)
    ensures Inv(w')
  {
    forall n: nat | n < |w'.effects| && w'.effects[n].ret == Pending ensures Awaited(w', n) {
      assert Awaited(w, n);
      var d :| d in w.active && w.active[d] == Performed(n);
      assert w'.active[d] == Performed(n);
    }
    forall d | d in w'.active ensures GoodActivity(w', d) {
      assert d != c ==> GoodActivity(w, d);
    }
  }

  lemma PerformKeepsActive(w: World, w': World, c: nat, output: Output)
    requires Active(w) && Perform(w, w', c, output)
    ensures Active(w')
  {
    forall n: nat | n < |w'.effects| && w'.effects[n].ret == Pending ensures Awaited(w', n) {
      if n == |w.effects| {
        assert w'.active[c] == Performed(n);
      } else {
        assert w.effects[n].ret == Pending && Awaited(w, n);
        var d :| d in w.active && w.active[d] == Performed(n);
        assert w'.active[d] == Performed(n);
      }
    }
    forall d | d in w'.active ensures GoodActivity(w', d) {
      assert GoodActivity(w, d);
      assert forall x :: x in w.active && w.active[x].Performed? ==> GoodActivity(w, x);
    }
  }

  lemma PerformKeepsLegal(w: World, w': World, c: nat, output: Output)
    requires Legitimate(w) && Perform(w, w', c, output)
    ensures Legitimate(w')
  {
    var o := AsOperation(w'.effects[|w.effects|]);
    LegalOneMore(map[], Ordered(w.effects), o);
    assert Ordered(w'.effects) == Ordered(w.effects) + [o];
  }

  lemma PerformKeeps(w: World, w': World, c: nat, output: Output)
    requires Inv(w) && Perform(w, w', c, output)
    ensures Inv(w')
  {
    assert GoodActivity(w, c);
    PerformKeepsActive(w, w', c, output);
    PerformKeepsLegal(w, w', c, output);
    forall o ensures multiset(w'.log)[o] == Returned(w'.effects, o) {
      ReturnedAppend(w.effects, w'.effects[|w.effects|], o);
    }
  }

  lemma ReturnKeepsActive(w: World, w': World, c: nat)
    requires Active(w) && Return(w, w', c)
    ensures Active(w')
  {
    assert GoodActivity(w, c);
    forall n: nat | n < |w'.effects| && w'.effects[n].ret == Pending ensures Awaited(w', n) {
      assert w.effects[n].ret == Pending && Awaited(w, n);
      var d :| d in w.active && w.active[d] == Performed(n);
      assert d in w'.active && w'.active[d] == Performed(n);
    }
    forall d | d in w'.active ensures GoodActivity(w', d) {
      assert GoodActivity(w, d);
    }
  }

  lemma ReturnKeepsOrder(w: World, w': World, c: nat)
    requires Timely(w.effects, w.now) && Legitimate(w) && Return(w, w', c)
    ensures Timely(w'.effects, w'.now) && Legitimate(w')
  {
    LegalIgnoresTimes(map[], Ordered(w.effects), Ordered(w'.effects));
  }

  lemma ReturnKeepsLog(w: World, w': World, c: nat)
    requires Logged(w) && Return(w, w', c) && GoodActivity(w, c)
    ensures Logged(w')
  {
    forall o ensures multiset(w'.log)[o] == Returned(w'.effects, o) {
      ReturnedUpdate(w.effects, w.active[c].n, w.now, o);
    }
  }

  lemma ReturnKeeps(w: World, w': World, c: nat)
    requires Inv(w) && Return(w, w', c)
    ensures Inv(w')
  {
    ReturnKeepsActive(w, w', c);
    ReturnKeepsOrder(w, w', c);
    ReturnKeepsLog(w, w', c);
  }

  lemma NextKeeps(w: World, w': World)
    requires Inv(w) && Next(w, w')
    ensures Inv(w')
  {
    if Tick(w, w') {
      forall d | d in w'.active ensures GoodActivity(w', d) {
        assert GoodActivity(w, d);
      }
      forall n: nat | n < |w'.effects| && w'.effects[n].ret == Pending ensures Awaited(w', n) {
        assert Awaited(w, n);
      }
    } else if c, input :| Invoke(w, w', c, input) {
      InvokeKeeps(w, w', c, input);
    } else if c, output :| Perform(w, w', c, output) {
      PerformKeeps(w, w', c, output);
    } else {
      var c :| Return(w, w', c);
      ReturnKeeps(w, w', c);
    }
  }

  lemma {:induction false} RunKeeps(run: seq<World>, i: nat)
    requires IsRun(run) && i < |run|
    ensures Inv(run[i])
  {
    if i > 0 {
      RunKeeps(run, i - 1);
      assert StepAt(run, i - 1);
      NextKeeps(run[i - 1], run[i]);
    }
  }

  // ---- The log passes the check ----

  // No operation is between its effect and its return.
  ghost predicate Settled(w: World)
  {
    forall c :: c in w.active ==> w.active[c].Invoked?
  }

  lemma SettledIsLinearizable(w: World)
    requires Inv(w) && Settled(w)
    ensures StoreLinearizable(w.log) && Completed(w.log)
  {
    forall i | 0 <= i < |w.effects| ensures w.effects[i].ret.At? {
      assert w.effects[i].ret == Pending ==> Awaited(w, i);
    }
    var lin := Ordered(w.effects);
    forall o ensures multiset(lin)[o] == multiset(w.log)[o] {
      AllReturned(w.effects, o);
    }
    assert IsLinearization(w.log, lin);
    forall i | 0 <= i < |w.log| ensures w.log[i].call <= w.log[i].ret {
      assert w.log[i] in multiset(w.log);
      assert w.log[i] in lin;
    }
  }

  // Main result: whatever operations any number of clients call, and however calls, effects and returns
  // interleave, whenever no operation is between effect and return the log is linearizable, and every
  // part of it that the check looks at is linearizable for its key.
  lemma EveryLogPasses(run: seq<World>, i: nat, keys: seq<string>, parts: seq<seq<Operation>>)
    requires IsRun(run) && i < |run| && Settled(run[i]) && IsPartition(run[i].log, keys, parts)
    ensures StoreLinearizable(run[i].log)
    ensures forall p :: 0 <= p < |parts| ==> Linearizable(parts[p])
  {
    RunKeeps(run, i);
    SettledIsLinearizable(run[i]);
    Locality(run[i].log, keys, parts);
  }

  // ---- The log tells the truth about time ----

  // At moment a client c is idle, and the time is t.
  ghost predicate CallAt(run: seq<World>, a: nat, c: nat, t: int)
  {
    a < |run| && c !in run[a].active && run[a].now == t
  }

  // At moment b the call of client c is open, and the store goes on by its operation.
  ghost predicate EffectAt(run: seq<World>, b: nat, c: nat, input: Input, output: Output)
  {
    && b + 1 < |run| && c in run[b].active && run[b].active[c].Invoked? && run[b].active[c].input == input
    && var (ok, next) := Step(Lookup(run[b].store, input.key), input, output);
    && ok && run[b + 1].store == run[b].store[input.key := next]
  }

  lemma {:induction false} InvokedSince(run: seq<World>, i: nat, c: nat)
    requires IsRun(run) && i < |run| && c in run[i].active && run[i].active[c].Invoked?
    ensures exists a: nat :: a < i && CallAt(run, a, c, run[i].active[c].call)
  {
    if i > 0 {
      assert StepAt(run, i - 1);
      if c in run[i - 1].active && run[i - 1].active[c] == run[i].active[c] {
        InvokedSince(run, i - 1, c);
        var a: nat :| a < i - 1 && CallAt(run, a, c, run[i].active[c].call);
      } else {
        assert CallAt(run, i - 1, c, run[i].active[c].call);
      }
    }
  }

  ghost predicate Happened(run: seq<World>, i: nat, e: Effect)
  {
    exists c: nat, a: nat, b: nat ::
      a < b < i && CallAt(run, a, c, e.call) && EffectAt(run, b, c, e.input, e.output)
  }

  // Effects are only added, and marked as returned.
  lemma EffectsStay(w: World, w': World)
    requires Next(w, w')
    ensures |w.effects| <= |w'.effects|
    ensures forall n :: 0 <= n < |w.effects| ==> w'.effects[n].(ret := Pending) == w.effects[n].(ret := Pending)
    ensures |w'.effects| > |w.effects| ==> |w'.effects| == |w.effects| + 1 && SomePerformed(w, w')
  {
  }

  ghost predicate SomePerformed(w: World, w': World)
  {
    exists c, output :: Perform(w, w', c, output)
  }

  lemma {:induction false} EffectHappened(run: seq<World>, i: nat, n: nat)
    requires IsRun(run) && i < |run| && n < |run[i].effects|
    ensures Happened(run, i, run[i].effects[n])
  {
    if i > 0 {
      assert StepAt(run, i - 1);
      var w, w' := run[i - 1], run[i];
      EffectsStay(w, w');
      if n < |w.effects| {
        EffectHappened(run, i - 1, n);
        var c: nat, a: nat, b: nat :|
          a < b < i - 1 && CallAt(run, a, c, w.effects[n].call) &&
          EffectAt(run, b, c, w.effects[n].input, w.effects[n].output);
        assert w'.effects[n].(ret := Pending) == w.effects[n].(ret := Pending);
      } else {
        var c, output :| Perform(w, w', c, output);
        InvokedSince(run, i - 1, c);
        var a: nat :| a < i - 1 && CallAt(run, a, c, w.active[c].call);
        assert EffectAt(run, i - 1, c, w.active[c].input, output);
      }
    }
  }

  // Main result: every logged operation was called, took effect and returned in this order, and the log has
  // the times of its call and of its return.
  lemma {:induction false} LoggedAsItHappened(run: seq<World>, i: nat, n: nat)
    requires IsRun(run) && i < |run| && n < |run[i].log|
    ensures var o := run[i].log[n];
            exists c: nat, a: nat, b: nat, d: nat ::
              a < b < d < i && CallAt(run, a, c, o.call) && EffectAt(run, b, c, o.input, o.output) &&
              run[d].now == o.ret && |run[d].log| == n
  {
    if i > 0 {
      assert StepAt(run, i - 1);
      var w, w' := run[i - 1], run[i];
      var o := w'.log[n];
      if n < |w.log| {
        assert w.log[n] == o;
        LoggedAsItHappened(run, i - 1, n);
        var c: nat, a: nat, b: nat, d: nat :|
          a < b < d < i - 1 && CallAt(run, a, c, o.call) && EffectAt(run, b, c, o.input, o.output) &&
          run[d].now == o.ret && |run[d].log| == n;
      } else {
        var x :| Return(w, w', x);
        EffectHappened(run, i - 1, w.active[x].n);
        var e := w.effects[w.active[x].n];
        var c: nat, a: nat, b: nat :|
          a < b < i - 1 && CallAt(run, a, c, e.call) && EffectAt(run, b, c, e.input, e.output);
        assert run[i - 1].now == o.ret && |run[i - 1].log| == n;
      }
    }
  }
}
