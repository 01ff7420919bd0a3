// Any number of clients putting to a set of keys, the checker of their counts, and the retry loop of
// a single writer.
module PutClients {
  import opened Clients
  import opened KvStep

  datatype EntryV = EntryV(id: nat, v: nat)

  // A client with the last version it has seen of each key; a busy one is about to put to a key, an
  // answered one about to read it back.
  type Putter = Client<map<string, nat>, string>

  type Store = map<string, KvState<EntryV>>

  datatype World = World(ka: seq<string>, store: Store, clients: seq<Putter>)

  ghost predicate Distinct(ka: seq<string>)
  {
    forall i, j :: 0 <= i < j < |ka| ==> ka[i] != ka[j]
  }

  // The keys may have any versions to begin with, left by earlier clients.  Version 0 stands for a key
  // that does not exist; its value is never read.
  ghost predicate Init(w: World)
  {
    && Distinct(w.ka) && (forall k :: k in w.ka ==> k in w.store)
    && forall c :: 0 <= c < |w.clients| ==> Starting(w.ka, w.clients[c])
  }

  ghost predicate Starting(ka: seq<string>, k: Putter)
  {
    && k.res == ClntRes(0, 0) && k.phase == Head
    && forall x :: x in ka ==> x in k.local && k.local[x] == 0
  }

  // After the read: OK and ErrMaybe end the put, ErrVersion starts another attempt.
  function AfterRead(c: Putter, k: string, err: string, ver: nat): Putter
  {
    Client(c.local[k := ver], Counted(c.res, err), if err == "OK" || err == "ErrMaybe" then Head else Busy(k))
  }

  // A client picks any of the keys for each put.
  ghost predicate ClientStep(w: World, w': World, c: nat)
  {
    && c < |w.clients| == |w'.clients|
    && var k, k' := w.clients[c], w'.clients[c];
    && w'.ka == w.ka && w'.clients == w.clients[c := k']
    && match k.phase
       case Head =>
         && w'.store == w.store
         && (k' == k.(phase := Finished) || exists x :: x in w.ka && k' == k.(phase := Busy(x)))
       case Busy(x) =>
         && x in w.store && x in w'.store && x in k.local
         && k'.phase.Answered? && k' == k.(phase := Answered(x, k'.phase.err))
         && PutStep(w.store[x], x, EntryV(c, k.local[x]), k.local[x], k'.phase.err, w'.store[x])
         && w'.store == w.store[x := w'.store[x]]
       case Answered(x, err) =>
         && w'.store == w.store && x in w.store
         && exists e, ver :: GetStep(w.store[x], x, e, ver) && k' == AfterRead(k, x, err, ver)
       case Finished => false
  }

  ghost predicate Next(w: World, w': World)
  {
    exists c :: ClientStep(w, w', c)
  }

  ghost predicate StepAt(run: seq<World>, i: nat)
    requires i < |run| - 1
  {
    Next(run[i], run[i + 1])
  }

  ghost predicate IsRun(run: seq<World>)
  {
    run != [] && Init(run[0]) && forall i: nat :: i < |run| - 1 ==> StepAt(run, i)
  }

  // ---- The sum of the stored versions ----

  function Version(store: Store, k: string): nat
  {
    if k in store then store[k].version else 0
  }

  function Total(store: Store, ka: seq<string>): nat
  {
    if ka == [] then 0 else Total(store, ka[..|ka| - 1]) + Version(store, ka[|ka| - 1])
  }

  lemma {:induction false} TotalElsewhere(store: Store, ka: seq<string>, k: string, st: KvState<EntryV>)
    requires k !in ka
    ensures Total(store[k := st], ka) == Total(store, ka)
  {
    if ka != [] {
      TotalElsewhere(store, ka[..|ka| - 1], k, st);
    }
  }

  lemma {:induction false} TotalUpdate(store: Store, ka: seq<string>, k: string, st: KvState<EntryV>)
    requires Distinct(ka) && k in ka
    ensures Total(store[k := st], ka) == Total(store, ka) - Version(store, k) + st.version
    ensures Version(store, k) <= Total(store, ka)
  {
    var n := |ka| - 1;
    if ka[n] == k {
      TotalElsewhere(store, ka[..n], k, st);
    } else {
      TotalUpdate(store, ka[..n], k, st);
    }
  }

  // ---- The invariant ----

  ghost predicate GoodClient(ka: seq<string>, store: Store, c: nat, k: Putter)
  {
    && (forall x :: x in ka ==> x in store && x in k.local && k.local[x] <= store[x].version)
    && match k.phase
       case Head => true
       case Busy(x) => x in ka
       case Answered(x, err) =>
         && x in ka && store[x].version > 0
         && (err == "OK" ==> k.local[x] + 1 <= store[x].version &&
                             (store[x].version == k.local[x] + 1 ==> store[x].value == EntryV(c, k.local[x])))
       case Finished => true
  }

  // All versions together have risen from base by at least the puts known to have happened and at most
  // those plus the ones feared to have.
  ghost predicate Bounded(w: World, base: nat)
  {
    var rs := Credited(w.clients);
    base + TotalOk(rs) <= Total(w.store, w.ka) <= base + TotalOk(rs) + TotalMaybe(rs)
  }

  ghost predicate Inv(w: World, base: nat)
  {
    && Distinct(w.ka) && Bounded(w, base)
    && forall c: nat :: c < |w.clients| ==> GoodClient(w.ka, w.store, c, w.clients[c])
  }

  lemma StepKeepsCount(w: World, w': World, c: nat, base: nat)
    requires Inv(w, base) && ClientStep(w, w', c)
    ensures Bounded(w', base)
  {
    var k := w.clients[c];
    assert GoodClient(w.ka, w.store, c, k);
    TotalsUpdate(Credited(w.clients), c, Credit(w'.clients[c]));
    assert Credited(w'.clients) == Credited(w.clients)[c := Credit(w'.clients[c])];
    if k.phase.Busy? {
      TotalUpdate(w.store, w.ka, k.phase.b, w'.store[k.phase.b]);
    }
  }

  lemma StepKeepsOther(w: World, w': World, c: nat, d: nat)
    requires ClientStep(w, w', c) && d < |w.clients| && d != c
    requires GoodClient(w.ka, w.store, d, w.clients[d])
    ensures GoodClient(w.ka, w'.store, d, w.clients[d])
  {
  }

  lemma StepKeepsOwn(w: World, w': World, c: nat)
    requires ClientStep(w, w', c) && GoodClient(w.ka, w.store, c, w.clients[c])
    ensures GoodClient(w.ka, w'.store, c, w'.clients[c])
  {
  }

  lemma StepKeeps(w: World, w': World, c: nat, base: nat)
    requires Inv(w, base) && ClientStep(w, w', c)
    ensures Inv(w', base)
  {
    StepKeepsCount(w, w', c, base);
    forall d: nat | d < |w'.clients| ensures GoodClient(w'.ka, w'.store, d, w'.clients[d]) {
      if d == c {
        StepKeepsOwn(w, w', c);
      } else {
        StepKeepsOther(w, w', c, d);
      }
    }
  }

  lemma {:induction false} RunKeeps(run: seq<World>, i: nat)
    requires IsRun(run) && i < |run|
    ensures Inv(run[i], Total(run[0].store, run[0].ka)) && run[i].ka == run[0].ka
  {
    if i == 0 {
      forall c | 0 <= c < |run[0].clients| ensures Credited(run[0].clients)[c] == ClntRes(0, 0) {
        assert Starting(run[0].ka, run[0].clients[c]);
      }
      NothingCounted(Credited(run[0].clients));
      forall c: nat | c < |run[0].clients| ensures GoodClient(run[0].ka, run[0].store, c, run[0].clients[c]) {
        assert Starting(run[0].ka, run[0].clients[c]);
      }
    } else {
      RunKeeps(run, i - 1);
      assert StepAt(run, i - 1);
      var c :| ClientStep(run[i - 1], run[i], c);
      StepKeeps(run[i - 1], run[i], c, Total(run[0].store, run[0].ka));
    }
  }

  // A client that was told OK and reads back version ver + 1 reads its own entry, and no read of an
  // answered client finds the key missing.  Both of its fatal checks therefore pass.
  lemma ReadBackIsOwn(run: seq<World>, i: nat, c: nat, e: EntryV, ver: nat)
    requires IsRun(run) && i < |run| && c < |run[i].clients| && run[i].clients[c].phase.Answered?
    requires var x := run[i].clients[c].phase.b; x in run[i].store ==> GetStep(run[i].store[x], x, e, ver)
    ensures var k := run[i].clients[c];
            && k.phase.b in run[i].store && k.phase.b in k.local && ver > 0
            && (k.phase.err == "OK" && ver == k.local[k.phase.b] + 1 ==> e == EntryV(c, k.local[k.phase.b]))
  {
    RunKeeps(run, i);
    assert GoodClient(run[i].ka, run[i].store, c, run[i].clients[c]);
  }

  // ---- The checker ----

  // The results are added to those of earlier rounds.
  method CheckPutConcurrent(ver0: nat, rs: seq<ClntRes>, before: ClntRes, reliable: bool)
    returns (ok: bool, res: ClntRes)
    ensures res.nok == before.nok + TotalOk(rs) && res.nmaybe == before.nmaybe + TotalMaybe(rs)
    ensures ok <==> if reliable then ver0 == res.nok else ver0 <= res.nok + res.nmaybe
  {
    res := before;
    for i := 0 to |rs|
      invariant res == Added(before, rs[..i])
    {
      assert rs[..i + 1][..i] == rs[..i];
      res := ClntRes(res.nok + rs[i].nok, res.nmaybe + rs[i].nmaybe);
    }
    assert rs[..|rs|] == rs;
    if reliable {
      ok := ver0 == res.nok;
    } else {
      ok := !(ver0 > res.nok + res.nmaybe);
    }
  }

  // Main result: when no client is between a put and its read, the versions of all keys together have
  // risen by at least the puts known to have succeeded and at most those plus the uncertain ones.
  lemma VersionCountsPuts(run: seq<World>, i: nat)
    requires IsRun(run) && i < |run| && Quiet(run[i].clients)
    ensures var rs := Results(run[i].clients);
            var risen := Total(run[i].store, run[i].ka) - Total(run[0].store, run[0].ka);
            TotalOk(rs) <= risen <= TotalOk(rs) + TotalMaybe(rs)
  {
    RunKeeps(run, i);
    QuietIsCredited(run[i].clients);
  }

  // Rounds of clients on one key: if the totals so far explain the version the round starts with, the
  // new totals explain the version it ends with.  So the lenient check passes in every round, and so
  // does the strict one as long as no put was uncertain.
  lemma EveryRoundIsExplained(run: seq<World>, i: nat, k: string, before: ClntRes)
    requires IsRun(run) && i < |run| && Quiet(run[i].clients) && run[0].ka == [k]
    requires before.nok <= Version(run[0].store, k) <= before.nok + before.nmaybe
    ensures var res := Added(before, Results(run[i].clients));
            && res.nok <= Version(run[i].store, k) <= res.nok + res.nmaybe
            && (res.nmaybe == 0 ==> Version(run[i].store, k) == res.nok)
  {
    RunKeeps(run, i);
    VersionCountsPuts(run, i);
    OneKey(run[0].store, k);
    OneKey(run[i].store, k);
  }

  lemma OneKey(store: Store, k: string)
    ensures Total(store, [k]) == Version(store, k)
  {
    assert [k][..0] == [];
  }

  // ---- Counts and answers ----

  ghost function TraceOf(run: seq<World>, i: nat, c: nat): seq<Putter>
    requires i < |run| && forall j :: 0 <= j <= i ==> c < |run[j].clients|
  {
    seq(i + 1, j requires 0 <= j <= i => run[j].clients[c])
  }

  lemma {:induction false} ClientsStay(run: seq<World>, j: nat)
    requires IsRun(run) && j < |run|
    ensures |run[j].clients| == |run[0].clients|
  {
    if j > 0 {
      ClientsStay(run, j - 1);
      assert StepAt(run, j - 1);
    }
  }

  lemma StepIsMove(w: World, w': World, c: nat)
    requires Next(w, w') && c < |w.clients|
    ensures c < |w'.clients| && ClientMove(w.clients[c], w'.clients[c])
  {
    var d :| ClientStep(w, w', d);
  }

  lemma RunIsTrace(run: seq<World>, i: nat, c: nat)
    requires IsRun(run) && i < |run| && c < |run[0].clients|
    ensures forall j :: 0 <= j <= i ==> c < |run[j].clients|
    ensures IsTrace(TraceOf(run, i, c))
  {
    forall j | 0 <= j <= i ensures c < |run[j].clients| {
      ClientsStay(run, j);
    }
    var trace := TraceOf(run, i, c);
    assert Starting(run[0].ka, run[0].clients[c]);
    forall j: nat | j < |trace| - 1 ensures MoveAt(trace, j) {
      assert StepAt(run, j);
      StepIsMove(run[j], run[j + 1], c);
    }
  }

  // In every run a client's counts are the numbers of OK and ErrMaybe answers it has got and counted.
  lemma CountsAreAnswers(run: seq<World>, i: nat, c: nat)
    requires IsRun(run) && i < |run| && c < |run[0].clients|
    ensures forall j :: 0 <= j <= i ==> c < |run[j].clients|
    ensures var trace, k := TraceOf(run, i, c), run[i].clients[c];
            && k.res.nok + (if Answer(k, "OK") then 1 else 0) == Answers(trace, "OK")
            && k.res.nmaybe + (if Answer(k, "ErrMaybe") then 1 else 0) == Answers(trace, "ErrMaybe")
  {
    RunIsTrace(run, i, c);
    AnswersAreCounted(TraceOf(run, i, c));
  }

  // No client is ever told ErrMaybe up to moment i.
  ghost predicate AllCertain(run: seq<World>, i: nat)
    requires i < |run|
  {
    forall j, c :: 0 <= j <= i && 0 <= c < |run[j].clients| ==> !Answer(run[j].clients[c], "ErrMaybe")
  }

  lemma CertainCounts(run: seq<World>, i: nat, c: nat)
    requires IsRun(run) && i < |run| && AllCertain(run, i) && c < |run[i].clients|
    ensures run[i].clients[c].res.nmaybe == 0
  {
    ClientsStay(run, i);
    CountsAreAnswers(run, i, c);
    NoSuchAnswer(TraceOf(run, i, c), "ErrMaybe");
  }

  lemma {:induction false} NoMaybes(rs: seq<ClntRes>)
    requires forall c :: 0 <= c < |rs| ==> rs[c].nmaybe == 0
    ensures TotalMaybe(rs) == 0
  {
    if rs != [] {
      NoMaybes(rs[..|rs| - 1]);
    }
  }

  // Main result: if no put was ever answered ErrMaybe, the versions have risen by exactly the OK puts.
  lemma CertainPutsAreExact(run: seq<World>, i: nat)
    requires IsRun(run) && i < |run| && Quiet(run[i].clients) && AllCertain(run, i)
    ensures TotalMaybe(Results(run[i].clients)) == 0
    ensures Total(run[i].store, run[i].ka) ==
            Total(run[0].store, run[0].ka) + TotalOk(Results(run[i].clients))
  {
    forall c | 0 <= c < |run[i].clients| ensures Results(run[i].clients)[c].nmaybe == 0 {
      CertainCounts(run, i, c);
    }
    NoMaybes(Results(run[i].clients));
    VersionCountsPuts(run, i);
  }

  // The checker, called after a round on one key, says yes: always in its lenient form, and in its strict
  // form if no put of this or an earlier round was answered ErrMaybe.
  method CheckRound(ghost run: seq<World>, ghost i: nat, k: string, ver0: nat, rs: seq<ClntRes>, before: ClntRes,
                    reliable: bool) returns (ok: bool, res: ClntRes)
    requires IsRun(run) && i < |run| && Quiet(run[i].clients) && run[0].ka == [k]
    requires before.nok <= Version(run[0].store, k) <= before.nok + before.nmaybe
    requires ver0 == Version(run[i].store, k) && rs == Results(run[i].clients)
    requires reliable ==> AllCertain(run, i) && before.nmaybe == 0
    ensures ok && res.nok <= ver0 <= res.nok + res.nmaybe && (reliable ==> res.nmaybe == 0)
  {
    EveryRoundIsExplained(run, i, k, before);
    if reliable {
      CertainPutsAreExact(run, i);
    }
    ok, res := CheckPutConcurrent(ver0, rs, before, reliable);
  }

  // A client whose put was refused puts again, until one is answered OK or ErrMaybe.
  lemma PutsUntilAnswered(run: seq<World>, i: nat, j: nat, c: nat)
    requires IsRun(run) && i <= j < |run| && c < |run[0].clients|
    requires c < |run[i].clients| && Unsettled(run[i].clients[c])
    ensures c < |run[j].clients|
    ensures Unsettled(run[j].clients[c]) ||
            exists m :: i < m <= j && c < |run[m].clients| &&
                        (Answer(run[m].clients[c], "OK") || Answer(run[m].clients[c], "ErrMaybe"))
  {
    RunIsTrace(run, j, c);
    var trace := TraceOf(run, j, c);
    NeverGivesUp(trace, i, j);
    if !Unsettled(trace[j]) {
      var m :| i < m <= j && (Answer(trace[m], "OK") || Answer(trace[m], "ErrMaybe"));
      assert trace[m] == run[m].clients[c];
    }
  }

  // ---- Every client can get a put through ----

  ghost function Last(run: seq<World>): World
    requires run != []
  {
    run[|run| - 1]
  }

  ghost predicate Continues(run: seq<World>, longer: seq<World>)
  {
    IsRun(longer) && run <= longer
  }

  lemma OneMore(run: seq<World>, w: World, c: nat) returns (longer: seq<World>)
    requires IsRun(run) && ClientStep(Last(run), w, c)
    ensures longer == run + [w] && Continues(run, longer)
  {
    longer := run + [w];
    forall i: nat | i < |longer| - 1 ensures StepAt(longer, i) {
      if i < |run| - 1 {
        assert StepAt(run, i);
      }
    }
  }

  lemma ReadBack(run: seq<World>, c: nat) returns (longer: seq<World>)
    requires IsRun(run) && c < |Last(run).clients| && Last(run).clients[c].phase.Answered?
    ensures Last(run).clients[c].phase.b in Last(run).store
    ensures var w, k := Last(run), Last(run).clients[c];
            && Continues(run, longer)
            && Last(longer) == w.(clients := w.clients[c := AfterRead(k, k.phase.b, k.phase.err,
                                                                     w.store[k.phase.b].version)])
  {
    RunKeeps(run, |run| - 1);
    var w, k := Last(run), Last(run).clients[c];
    assert GoodClient(w.ka, w.store, c, k);
    var st := w.store[k.phase.b];
    var w' := w.(clients := w.clients[c := AfterRead(k, k.phase.b, k.phase.err, st.version)]);
    assert GetStep(st, k.phase.b, st.value, st.version);
    longer := OneMore(run, w', c);
  }

  lemma PutOnce(run: seq<World>, c: nat) returns (longer: seq<World>)
    requires IsRun(run) && c < |Last(run).clients| && Last(run).clients[c].phase.Busy?
    ensures Last(run).clients[c].phase.b in Last(run).store
    ensures Last(run).clients[c].phase.b in Last(run).clients[c].local
    ensures var w, k := Last(run), Last(run).clients[c];
            var x := k.phase.b;
            var fits := k.local[x] == w.store[x].version;
            && Continues(run, longer) && |Last(longer).clients| == |w.clients|
            && Last(longer).clients[c] == k.(phase := Answered(x, if fits then "OK" else "ErrVersion"))
  {
    RunKeeps(run, |run| - 1);
    var w, k := Last(run), Last(run).clients[c];
    assert GoodClient(w.ka, w.store, c, k);
    var x := k.phase.b;
    var fits := k.local[x] == w.store[x].version;
    var next := if fits then KvState(EntryV(c, k.local[x]), k.local[x] + 1) else w.store[x];
    var k' := k.(phase := Answered(x, if fits then "OK" else "ErrVersion"));
    PutStepExactly(w.store[x], x, EntryV(c, k.local[x]), k.local[x], k'.phase.err, next);
    longer := OneMore(run, w.(store := w.store[x := next], clients := w.clients[c := k']), c);
  }

  // A client that knows the stored version gets its put through; one that does not learns it first.
  lemma PutThrough(run: seq<World>, c: nat, fresh': bool) returns (longer: seq<World>)
    requires IsRun(run) && c < |Last(run).clients| && Last(run).clients[c].phase.Busy?
    requires var k := Last(run).clients[c];
             fresh' ==> k.phase.b in Last(run).store && k.phase.b in k.local &&
                        k.local[k.phase.b] == Last(run).store[k.phase.b].version
    ensures Continues(run, longer) && |Last(longer).clients| == |Last(run).clients|
    ensures Last(longer).clients[c].phase == Head
    ensures Last(longer).clients[c].res == Counted(Last(run).clients[c].res, "OK")
    decreases !fresh'
  {
    longer := PutOnce(run, c);
    longer := ReadBack(longer, c);
    if Last(longer).clients[c].phase.Busy? {
      longer := PutThrough(longer, c, true);
    }
  }

  // Main result: from every moment of every run, a client that has not ended can get a put answered OK.
  lemma EveryClientCanSucceed(run: seq<World>, c: nat) returns (longer: seq<World>)
    requires IsRun(run) && c < |Last(run).clients| && Last(run).clients[c].phase != Finished && Last(run).ka != []
    ensures Continues(run, longer) && c < |Last(longer).clients|
    ensures Last(longer).clients[c].phase == Head
    ensures Last(longer).clients[c].res.nok > Last(run).clients[c].res.nok
  {
    longer := run;
    if Last(longer).clients[c].phase.Answered? {
      longer := ReadBack(longer, c);
    }
    if Last(longer).clients[c].phase == Head {
      var w := Last(longer);
      var k' := w.clients[c].(phase := Busy(w.ka[0]));
      assert w.ka[0] in w.ka;
      longer := OneMore(longer, w.(clients := w.clients[c := k']), c);
    }
    longer := PutThrough(longer, c, false);
  }

  // ---- A single writer that retries ----

  // The answers are finite, one per attempt: certain, or ErrMaybe.  The loop ends with the first OK,
  // which is the first certain answer from the attempt on that has caught up with the stored version.
  // Every attempt from that one on, and no other, is a put that takes effect.
  method PutAtLeastOnce<V(==)>(st: KvState<V>, key: string, value: V, ver: nat, certain: seq<bool>)
    returns (st': KvState<V>, ver': nat, done: bool)
    ensures ver > st.version ==> !done && st' == st
    ensures ver <= st.version ==> st' == if ver' <= st.version then st else KvState(value, ver')
    ensures ver <= st.version ==> (done <==> exists i :: st.version - ver <= i < |certain| && certain[i])
    ensures !done ==> ver' == ver + |certain|
    ensures done ==>
              && st.version < ver' <= ver + |certain| && certain[ver' - ver - 1]
              && forall i :: st.version - ver <= i < ver' - ver - 1 ==> !certain[i]
  {
    st', ver', done := st, ver, false;
    for i := 0 to |certain|
      invariant ver' == ver + i
      invariant ver > st.version ==> st' == st
      invariant ver <= st.version ==> st' == if ver' <= st.version then st else KvState(value, ver')
      invariant ver <= st.version ==> forall j :: st.version - ver <= j < i ==> !certain[j]
    {
      var matches := st'.version == ver';
      var err := if !certain[i] then "ErrMaybe" else if matches then "OK" else "ErrVersion";
      var (_, next) := Step(st', KvInput(1, key, value, ver'), KvOutput(value, ver', err));
      assert PutStep(st', key, value, ver', err, next);
      st' := next;
      ver' := ver' + 1;
      if err == "OK" {
        return st', ver', true;
      }
    }
  }
}
