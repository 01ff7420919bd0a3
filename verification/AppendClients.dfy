// Any number of clients appending to one list with get-then-put, and the checker that inspects it.
module AppendClients {
  import opened Clients
  import opened KvStep

  datatype Entry = Entry(id: nat, n: nat)

  datatype Attempt =
    | Trying                                // about to read the list
    | Holding(es: seq<Entry>, ver: nat)     // has read it, about to put

  // A client with the number of its next entry.
  type Appender = Client<nat, Attempt>

  datatype World = World(st: KvState<seq<Entry>>, clients: seq<Appender>)

  ghost predicate Init(w: World)
  {
    && w.st == KvState([], 1)
    && forall c :: 0 <= c < |w.clients| ==> w.clients[c] == Client(0, ClntRes(0, 0), Head)
  }

  // What the client makes of the answer: OK and ErrMaybe end the append, ErrVersion starts another attempt.
  function AfterPut(k: Appender, err: string): Appender
  {
    if err == "OK" || err == "ErrMaybe" then Client(k.local + 1, Counted(k.res, err), Head)
    else k.(phase := Busy(Trying))
  }

  ghost predicate ClientStep(w: World, w': World, c: nat)
  {
    && c < |w.clients| == |w'.clients|
    && var k, k' := w.clients[c], w'.clients[c];
    && w'.clients == w.clients[c := k']
    && match k.phase
       case Head => w'.st == w.st && (k' == k.(phase := Busy(Trying)) || k' == k.(phase := Finished))
       case Busy(Trying) =>
         && w'.st == w.st && k'.phase.Busy? && k'.phase.b.Holding? && k' == k.(phase := k'.phase)
         && GetStep(w.st, "k", k'.phase.b.es, k'.phase.b.ver)
       case Busy(Holding(es, ver)) =>
         && k'.phase.Answered? && k' == k.(phase := Answered(k.phase.b, k'.phase.err))
         && PutStep(w.st, "k", es + [Entry(c, k.local)], ver, k'.phase.err, w'.st)
       case Answered(_, err) => w'.st == w.st && k' == AfterPut(k, err)
       case Finished => false
  }

  ghost predicate Next(w: World, w': World)
  {
    exists c :: ClientStep(w, w', c)
  }

  ghost predicate StepAt(run: seq<World>, i: nat)
    requires i < |run| - 1
  {
    Next(run[i], run[i + 1])
  }

  ghost predicate IsRun(run: seq<World>)
  {
    run != [] && Init(run[0]) && forall i: nat :: i < |run| - 1 ==> StepAt(run, i)
  }

  // ---- What the list says about one client ----

  function Count(es: seq<Entry>, c: nat): nat
  {
    if es == [] then 0
    else Count(es[..|es| - 1], c) + if es[|es| - 1].id == c then 1 else 0
  }

  // The number after the last one this client has in the list.
  function Expect(es: seq<Entry>, c: nat): nat
  {
    if es == [] then 0
    else if es[|es| - 1].id == c then es[|es| - 1].n + 1
    else Expect(es[..|es| - 1], c)
  }

  ghost predicate Increasing(es: seq<Entry>)
  {
    forall i, j :: 0 <= i < j < |es| && es[i].id == es[j].id ==> es[i].n < es[j].n
  }

  lemma CountAppend(es: seq<Entry>, e: Entry, c: nat)
    ensures Count(es + [e], c) == Count(es, c) + if e.id == c then 1 else 0
    ensures Expect(es + [e], c) == if e.id == c then e.n + 1 else Expect(es, c)
  {
  }

  // In an increasing list the expected number is above all numbers of the client, and it is met.
  lemma {:induction false} ExpectIsLast(es: seq<Entry>, c: nat)
    requires Increasing(es)
    ensures forall i :: 0 <= i < |es| && es[i].id == c ==> es[i].n < Expect(es, c)
    ensures Expect(es, c) > 0 ==> exists i :: 0 <= i < |es| && es[i] == Entry(c, Expect(es, c) - 1)
  {
    if es != [] {
      var n := |es| - 1;
      if es[n].id == c {
        assert es[n] == Entry(c, Expect(es, c) - 1);
      } else {
        ExpectIsLast(es[..n], c);
        if Expect(es, c) > 0 {
          var i :| 0 <= i < n && es[..n][i] == Entry(c, Expect(es, c) - 1);
          assert es[i] == Entry(c, Expect(es, c) - 1);
        }
      }
    }
  }

  // ---- The invariant ----

  ghost predicate Held(k: Appender)
  {
    k.phase.Busy? && k.phase.b.Holding?
  }

  ghost predicate GoodClient(w: World, c: nat)
    requires c < |w.clients|
  {
    var k := w.clients[c];
    && k.local == k.res.nok + k.res.nmaybe
    && Count(w.st.value, c) >= Credit(k).nok
    && Expect(w.st.value, c) <= Credit(k).nok + Credit(k).nmaybe
    && (Held(k) ==> k.phase.b.ver <= w.st.version &&
                    (k.phase.b.ver == w.st.version ==> k.phase.b.es == w.st.value))
  }

  ghost predicate Inv(w: World)
  {
    && |w.st.value| + 1 == w.st.version
    && Increasing(w.st.value)
    && (forall i :: 0 <= i < |w.st.value| ==> w.st.value[i].id < |w.clients|)
    && forall c: nat :: c < |w.clients| ==> GoodClient(w, c)
  }

  lemma AppendKeeps(w: World, w': World, c: nat, err: string)
    requires Inv(w) && c < |w.clients| && Held(w.clients[c])
    requires w.clients[c].phase.b.ver == w.st.version && err in {"OK", "ErrMaybe"}
    requires w'.clients == w.clients[c := w.clients[c].(phase := Answered(w.clients[c].phase.b, err))]
    requires w'.st == KvState(w.clients[c].phase.b.es + [Entry(c, w.clients[c].local)], w.st.version + 1)
    ensures Inv(w')
  {
    var k := w.clients[c];
    var es, e := w.st.value, Entry(c, k.local);
    assert GoodClient(w, c);
    assert w'.st.value == es + [e];
    ExpectIsLast(es, c);
    forall d: nat | d < |w'.clients| ensures GoodClient(w', d) {
      assert GoodClient(w, d);
      CountAppend(es, e, d);
    }
  }

  lemma StepKeeps(w: World, w': World, c: nat)
    requires Inv(w) && ClientStep(w, w', c)
    ensures Inv(w')
  {
    var k := w.clients[c];
    assert GoodClient(w, c);
    if Held(k) && k.phase.b.ver == w.st.version {
      AppendKeeps(w, w', c, w'.clients[c].phase.err);
      return;
    }
    assert w'.st == w.st;
    forall d: nat | d < |w'.clients| ensures GoodClient(w', d) {
      assert GoodClient(w, d);
    }
  }

  lemma {:induction false} RunKeeps(run: seq<World>, i: nat)
    requires IsRun(run) && i < |run|
    ensures Inv(run[i]) && |run[i].clients| == |run[0].clients|
  {
    if i > 0 {
      RunKeeps(run, i - 1);
      assert StepAt(run, i - 1);
      var c :| ClientStep(run[i - 1], run[i], c);
      StepKeeps(run[i - 1], run[i], c);
    }
  }

  // ---- The checker ----

  // Every client's numbers increase, every put left one entry, and no client skipped more numbers
  // than it had uncertain puts or has more numbers than it made puts.
  ghost predicate Accepted(es: seq<Entry>, rs: seq<ClntRes>, ver: nat)
  {
    && Increasing(es)
    && |es| + 1 == ver
    && forall c: nat :: c < |rs| ==>
                          && Expect(es, c) - Count(es, c) <= rs[c].nmaybe
                          && Expect(es, c) <= rs[c].nok + rs[c].nmaybe
  }

  lemma IncreasingAppend(es: seq<Entry>, e: Entry)
    requires Increasing(es)
    ensures Increasing(es + [e]) <==> Expect(es, e.id) <= e.n
  {
    ExpectIsLast(es, e.id);
    var more := es + [e];
    if Expect(es, e.id) > 0 {
      var i :| 0 <= i < |es| && es[i] == Entry(e.id, Expect(es, e.id) - 1);
      assert more[i] == es[i] && more[|es|] == e;
    }
  }

  lemma IncreasingPrefix(es: seq<Entry>, i: nat)
    requires i < |es| && !Increasing(es[..i + 1])
    ensures !Increasing(es)
  {
  }

  function At(m: map<nat, nat>, c: nat): nat
  {
    if c in m then m[c] else 0
  }

  method CheckAppends(es: seq<Entry>, nclnt: nat, rs: seq<ClntRes>, ver: nat) returns (ok: bool)
    requires |rs| == nclnt && forall e :: e in es ==> e.id < nclnt
    ensures ok <==> Accepted(es, rs, ver)
  {
    var wanted: map<nat, nat>, skipped: map<nat, nat> := map[], map[];
    for i := 0 to nclnt
      invariant forall c: nat :: c in wanted <==> c < i
      invariant forall c :: c in wanted ==> wanted[c] == 0
      invariant forall c :: c in skipped ==> skipped[c] == 0
    {
      wanted, skipped := wanted[i := 0], skipped[i := 0];
    }
    for i := 0 to |es|
      invariant Increasing(es[..i])
      invariant forall c: nat :: c in wanted <==> c < nclnt
      invariant forall c :: At(wanted, c) == Expect(es[..i], c)
      invariant forall c :: At(skipped, c) + Count(es[..i], c) == Expect(es[..i], c)
    {
      var e := es[i];
      assert es[..i + 1] == es[..i] + [e];
      IncreasingAppend(es[..i], e);
      forall c { CountAppend(es[..i], e, c); }
      if At(wanted, e.id) > e.n {
        IncreasingPrefix(es, i);
        return false;
      } else if At(wanted, e.id) == e.n {
        wanted := wanted[e.id := At(wanted, e.id) + 1];
      } else {
        var s := e.n - At(wanted, e.id);
        wanted := wanted[e.id := e.n + 1];
        skipped := skipped[e.id := At(skipped, e.id) + s];
      }
    }
    assert es[..|es|] == es;
    if |es| + 1 != ver {
      return false;
    }
    for c := 0 to nclnt
      invariant forall d: nat :: d < c ==>
                                   && Expect(es, d) - Count(es, d) <= rs[d].nmaybe
                                   && Expect(es, d) <= rs[d].nok + rs[d].nmaybe
    {
      if At(skipped, c) > rs[c].nmaybe {
        return false;
      }
      if At(wanted, c) > rs[c].nok + rs[c].nmaybe {
        return false;
      }
    }
    return true;
  }

  // In every interleaving of any number of clients, at every moment, every entry is by one of them, and
  // the checker accepts the stored list and version against their counts, answers on their way included.
  lemma EveryMomentIsAccepted(run: seq<World>, i: nat)
    requires IsRun(run) && i < |run|
    ensures forall e :: e in run[i].st.value ==> e.id < |run[i].clients|
    ensures Accepted(run[i].st.value, Credited(run[i].clients), run[i].st.version)
  {
    RunKeeps(run, i);
    var w := run[i];
    forall c: nat | c < |w.clients|
      ensures Expect(w.st.value, c) - Count(w.st.value, c) <= Credit(w.clients[c]).nmaybe
      ensures Expect(w.st.value, c) <= Credit(w.clients[c]).nok + Credit(w.clients[c]).nmaybe
    {
      assert GoodClient(w, c);
    }
  }

  // Main result: whenever no answer is on its way, in particular when all clients have finished, the
  // checker accepts against the counts the clients return.
  lemma EveryRunIsAccepted(run: seq<World>, i: nat)
    requires IsRun(run) && i < |run| && Quiet(run[i].clients)
    ensures forall e :: e in run[i].st.value ==> e.id < |run[i].clients|
    ensures Accepted(run[i].st.value, Results(run[i].clients), run[i].st.version)
  {
    EveryMomentIsAccepted(run, i);
    QuietIsCredited(run[i].clients);
  }

  // The checker itself, called at such a moment, says yes.
  method CheckRun(ghost run: seq<World>, ghost i: nat, st: KvState<seq<Entry>>, rs: seq<ClntRes>) returns (ok: bool)
    requires IsRun(run) && i < |run| && Quiet(run[i].clients)
    requires st == run[i].st && rs == Results(run[i].clients)
    ensures ok
  {
    EveryRunIsAccepted(run, i);
    ok := CheckAppends(st.value, |rs|, rs, st.version);
  }

  // ---- What acceptance means ----

  // The numbers below the highest that client c has in the list and that are not there.
  ghost function Missing(es: seq<Entry>, c: nat): set<nat>
  {
    set n: nat | n < Expect(es, c) && Entry(c, n) !in es
  }

  ghost function Present(es: seq<Entry>, c: nat): set<nat>
  {
    set n: nat | n < Expect(es, c) && Entry(c, n) in es
  }

  lemma {:induction false} PresentCount(es: seq<Entry>, c: nat)
    requires Increasing(es)
    ensures |Present(es, c)| == Count(es, c)
  {
    if es != [] {
      var n := |es| - 1;
      var before := es[..n];
      PresentCount(before, c);
      ExpectIsLast(before, c);
      ExpectIsLast(es, c);
      assert es == before + [es[n]];
      if es[n].id == c {
        assert es[n] == Entry(c, es[n].n);
        forall x: nat ensures x in Present(es, c) <==> x in Present(before, c) + {es[n].n} {
          PresentStep(before, es[n], c, x);
        }
        assert Present(es, c) == Present(before, c) + {es[n].n};
      } else {
        forall x: nat ensures x in Present(es, c) <==> x in Present(before, c) {
          PresentStep(before, es[n], c, x);
        }
        assert Present(es, c) == Present(before, c);
      }
    }
  }

  lemma PresentStep(es: seq<Entry>, e: Entry, c: nat, x: nat)
    requires Increasing(es + [e])
    ensures x in Present(es + [e], c) <==> x in Present(es, c) || e == Entry(c, x)
    ensures e.id == c ==> e.n !in Present(es, c)
  {
    var more := es + [e];
    assert Increasing(es) by {
      assert forall i :: 0 <= i < |es| ==> more[i] == es[i];
    }
    ExpectIsLast(es, c);
    ExpectIsLast(more, c);
    CountAppend(es, e, c);
    if Entry(c, x) in more {
      var i :| 0 <= i < |more| && more[i] == Entry(c, x);
      assert x < Expect(more, c);
      assert i < |es| ==> es[i] == Entry(c, x);
    }
    IncreasingAppend(es, e);
  }

  ghost function Below(n: nat): set<nat>
  {
    if n == 0 then {} else Below(n - 1) + {n - 1}
  }

  lemma {:induction false} BelowCount(n: nat)
    ensures |Below(n)| == n && forall x: nat :: x in Below(n) <==> x < n
  {
    if n > 0 {
      BelowCount(n - 1);
    }
  }

  lemma MissingCount(es: seq<Entry>, c: nat)
    requires Increasing(es)
    ensures |Missing(es, c)| == Expect(es, c) - Count(es, c)
  {
    PresentCount(es, c);
    BelowCount(Expect(es, c));
    assert Below(Expect(es, c)) == Present(es, c) + Missing(es, c) && Present(es, c) !! Missing(es, c);
  }

  // A list is accepted exactly when its length and the version agree, every client's numbers increase along
  // it, no client misses more numbers below its highest than it had uncertain puts, and none has a number
  // that it did not reach.
  lemma AcceptedExactly(es: seq<Entry>, rs: seq<ClntRes>, ver: nat)
    ensures Accepted(es, rs, ver) <==>
            && |es| + 1 == ver
            && (forall i, j :: 0 <= i < j < |es| && es[i].id == es[j].id ==> es[i].n < es[j].n)
            && (forall c: nat :: c < |rs| ==> |Missing(es, c)| <= rs[c].nmaybe)
            && (forall i :: 0 <= i < |es| && es[i].id < |rs| ==>
                              es[i].n < rs[es[i].id].nok + rs[es[i].id].nmaybe)
  {
    if forall i, j :: 0 <= i < j < |es| && es[i].id == es[j].id ==> es[i].n < es[j].n {
      assert Increasing(es);
      forall c: nat | c < |rs|
        ensures |Missing(es, c)| == Expect(es, c) - Count(es, c)
        ensures Expect(es, c) <= rs[c].nok + rs[c].nmaybe <==>
                forall i :: 0 <= i < |es| && es[i].id == c ==> es[i].n < rs[c].nok + rs[c].nmaybe
      {
        MissingCount(es, c);
        ExpectIsLast(es, c);
      }
    }
  }

  // ---- Counts and answers ----

  ghost function TraceOf(run: seq<World>, i: nat, c: nat): seq<Appender>
    requires i < |run| && forall j :: 0 <= j <= i ==> c < |run[j].clients|
  {
    seq(i + 1, j requires 0 <= j <= i => run[j].clients[c])
  }

  lemma StepIsMove(w: World, w': World, c: nat)
    requires Next(w, w') && c < |w.clients|
    ensures c < |w'.clients| && ClientMove(w.clients[c], w'.clients[c])
  {
    var d :| ClientStep(w, w', d);
  }

  lemma RunIsTrace(run: seq<World>, i: nat, c: nat)
    requires IsRun(run) && i < |run| && c < |run[0].clients|
    ensures forall j :: 0 <= j <= i ==> c < |run[j].clients|
    ensures IsTrace(TraceOf(run, i, c))
  {
    forall j | 0 <= j <= i ensures c < |run[j].clients| {
      RunKeeps(run, j);
    }
    var trace := TraceOf(run, i, c);
    forall j: nat | j < |trace| - 1 ensures MoveAt(trace, j) {
      assert StepAt(run, j);
      StepIsMove(run[j], run[j + 1], c);
    }
  }

  // In every run a client's counts are the numbers of OK and ErrMaybe answers it has got and counted.
  lemma CountsAreAnswers(run: seq<World>, i: nat, c: nat)
    requires IsRun(run) && i < |run| && c < |run[0].clients|
    ensures forall j :: 0 <= j <= i ==> c < |run[j].clients|
    ensures var trace, k := TraceOf(run, i, c), run[i].clients[c];
            && k.res.nok + (if Answer(k, "OK") then 1 else 0) == Answers(trace, "OK")
            && k.res.nmaybe + (if Answer(k, "ErrMaybe") then 1 else 0) == Answers(trace, "ErrMaybe")
  {
    RunIsTrace(run, i, c);
    AnswersAreCounted(TraceOf(run, i, c));
  }

  // A client whose put was refused reads and puts again, until a put is answered OK or ErrMaybe.
  lemma AppendsUntilAnswered(run: seq<World>, i: nat, j: nat, c: nat)
    requires IsRun(run) && i <= j < |run| && c < |run[0].clients|
    requires c < |run[i].clients| && Unsettled(run[i].clients[c])
    ensures c < |run[j].clients|
    ensures Unsettled(run[j].clients[c]) ||
            exists m :: i < m <= j && c < |run[m].clients| &&
                        (Answer(run[m].clients[c], "OK") || Answer(run[m].clients[c], "ErrMaybe"))
  {
    RunIsTrace(run, j, c);
    var trace := TraceOf(run, j, c);
    NeverGivesUp(trace, i, j);
    if !Unsettled(trace[j]) {
      var m :| i < m <= j && (Answer(trace[m], "OK") || Answer(trace[m], "ErrMaybe"));
      assert trace[m] == run[m].clients[c];
    }
  }

  // ---- Every client can get an append through ----

  ghost function Last(run: seq<World>): World
    requires run != []
  {
    run[|run| - 1]
  }

  ghost predicate Continues(run: seq<World>, longer: seq<World>)
  {
    IsRun(longer) && run <= longer
  }

  lemma OneMore(run: seq<World>, w: World, c: nat) returns (longer: seq<World>)
    requires IsRun(run) && ClientStep(Last(run), w, c)
    ensures longer == run + [w] && Continues(run, longer)
  {
    longer := run + [w];
    forall i: nat | i < |longer| - 1 ensures StepAt(longer, i) {
      if i < |run| - 1 {
        assert StepAt(run, i);
      }
    }
  }

  // From the read on, undisturbed: the entry is appended and counted.
  lemma AppendThrough(run: seq<World>, c: nat) returns (longer: seq<World>)
    requires IsRun(run) && c < |Last(run).clients| && Last(run).clients[c].phase == Busy(Trying)
    ensures var w, k := Last(run), Last(run).clients[c];
            && Continues(run, longer)
            && Last(longer).st == KvState(w.st.value + [Entry(c, k.local)], w.st.version + 1)
            && Last(longer).clients ==
               w.clients[c := Client(k.local + 1, ClntRes(k.res.nok + 1, k.res.nmaybe), Head)]
  {
    var w, k := Last(run), Last(run).clients[c];
    var holding := Holding(w.st.value, w.st.version);
    var k1 := k.(phase := Busy(holding));
    GetStepExactly(w.st, "k", w.st.value, w.st.version);
    longer := OneMore(run, w.(clients := w.clients[c := k1]), c);
    var st := KvState(w.st.value + [Entry(c, k.local)], w.st.version + 1);
    var k2 := k.(phase := Answered(holding, "OK"));
    PutStepExactly(w.st, "k", w.st.value + [Entry(c, k.local)], w.st.version, "OK", st);
    longer := OneMore(longer, World(st, w.clients[c := k1][c := k2]), c);
    var k3: Appender := Client(k.local + 1, ClntRes(k.res.nok + 1, k.res.nmaybe), Head);
    longer := OneMore(longer, World(st, w.clients[c := k1][c := k2][c := k3]), c);
    assert w.clients[c := k1][c := k2][c := k3] == w.clients[c := k3];
  }

  // An attempt that is open is brought to an end.
  lemma SettleAttempt(run: seq<World>, c: nat) returns (longer: seq<World>)
    requires IsRun(run) && c < |Last(run).clients| && Last(run).clients[c].phase != Finished
    ensures Continues(run, longer) && |Last(longer).clients| == |Last(run).clients|
    ensures Last(longer).clients[c].phase == Head || Last(longer).clients[c].phase == Busy(Trying)
    ensures Last(longer).clients[c].res.nok >= Last(run).clients[c].res.nok
  {
    longer := run;
    if Held(Last(longer).clients[c]) {
      var w, k := Last(longer), Last(longer).clients[c];
      var es, ver := k.phase.b.es + [Entry(c, k.local)], k.phase.b.ver;
      var next := if ver == w.st.version then KvState(es, ver + 1) else w.st;
      var err := if ver == w.st.version then "OK" else "ErrVersion";
      PutStepExactly(w.st, "k", es, ver, err, next);
      longer := OneMore(longer, World(next, w.clients[c := k.(phase := Answered(k.phase.b, err))]), c);
    }
    if Last(longer).clients[c].phase.Answered? {
      var w, k := Last(longer), Last(longer).clients[c];
      longer := OneMore(longer, w.(clients := w.clients[c := AfterPut(k, k.phase.err)]), c);
    }
  }

  // Main result: from every moment of every run, a client that has not ended can get an append answered OK.
  lemma EveryClientCanSucceed(run: seq<World>, c: nat) returns (longer: seq<World>)
    requires IsRun(run) && c < |Last(run).clients| && Last(run).clients[c].phase != Finished
    ensures Continues(run, longer) && c < |Last(longer).clients|
    ensures Last(longer).clients[c].phase == Head
    ensures Last(longer).clients[c].res.nok > Last(run).clients[c].res.nok
  {
    longer := SettleAttempt(run, c);
    if Last(longer).clients[c].phase == Head {
      var w := Last(longer);
      longer := OneMore(longer, w.(clients := w.clients[c := w.clients[c].(phase := Busy(Trying))]), c);
    }
    longer := AppendThrough(longer, c);
  }
}
