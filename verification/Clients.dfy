// What the client loops of the tests have in common: the phases of a client, the results it returns,
// and their totals.
module Clients {

  datatype ClntRes = ClntRes(nok: nat, nmaybe: nat)

  datatype Phase<B> =
    | Head                          // about to look at the done signal
    | Busy(b: B)                    // about to get or put
    | Answered(b: B, err: string)   // has the answer to a put, not yet counted
    | Finished

  datatype Client<L, B> = Client(local: L, res: ClntRes, phase: Phase<B>)

  // OK and ErrMaybe are counted; any other answer makes the client try again.
  function Counted(res: ClntRes, err: string): ClntRes
  {
    if err == "OK" then res.(nok := res.nok + 1)
    else if err == "ErrMaybe" then res.(nmaybe := res.nmaybe + 1)
    else res
  }

  // The results of a client, with an answer that it has not counted yet.
  function Credit<L, B>(k: Client<L, B>): ClntRes
  {
    if k.phase.Answered? then Counted(k.res, k.phase.err) else k.res
  }

  function Results<L, B>(clients: seq<Client<L, B>>): seq<ClntRes>
  {
    seq(|clients|, c requires 0 <= c < |clients| => clients[c].res)
  }

  function Credited<L, B>(clients: seq<Client<L, B>>): seq<ClntRes>
  {
    seq(|clients|, c requires 0 <= c < |clients| => Credit(clients[c]))
  }

  ghost predicate Quiet<L, B>(clients: seq<Client<L, B>>)
  {
    forall c :: 0 <= c < |clients| ==> !clients[c].phase.Answered?
  }

  lemma QuietIsCredited<L, B>(clients: seq<Client<L, B>>)
    requires Quiet(clients)
    ensures Credited(clients) == Results(clients)
  {
  }

  function TotalOk(rs: seq<ClntRes>): nat
  {
    if rs == [] then 0 else TotalOk(rs[..|rs| - 1]) + rs[|rs| - 1].nok
  }

  function TotalMaybe(rs: seq<ClntRes>): nat
  {
    if rs == [] then 0 else TotalMaybe(rs[..|rs| - 1]) + rs[|rs| - 1].nmaybe
  }

  function Added(res: ClntRes, rs: seq<ClntRes>): ClntRes
  {
    ClntRes(res.nok + TotalOk(rs), res.nmaybe + TotalMaybe(rs))
  }

  lemma {:induction false} TotalsUpdate(rs: seq<ClntRes>, c: nat, r: ClntRes)
    requires c < |rs|
    ensures TotalOk(rs[c := r]) == TotalOk(rs) - rs[c].nok + r.nok
    ensures TotalMaybe(rs[c := r]) == TotalMaybe(rs) - rs[c].nmaybe + r.nmaybe
  {
    var n := |rs| - 1;
    if c < n {
      TotalsUpdate(rs[..n], c, r);
      assert rs[c := r][..n] == rs[..n][c := r];
    } else {
      assert rs[c := r][..n] == rs[..n];
    }
  }

  lemma {:induction false} NothingCounted(rs: seq<ClntRes>)
    requires forall c :: 0 <= c < |rs| ==> rs[c] == ClntRes(0, 0)
    ensures TotalOk(rs) == TotalMaybe(rs) == 0
  {
    if rs != [] {
      NothingCounted(rs[..|rs| - 1]);
    }
  }

  // ---- The answers a client gets ----

  // How one client goes on: it counts an answer once, tries again after one that is not counted, and looks
  // at the done signal only when no attempt is open.
  ghost predicate ClientMove<L(!new), B(!new)>(k: Client<L, B>, k': Client<L, B>)
  {
    k' == k ||
    match k.phase
    case Head => k'.res == k.res && (k'.phase == Finished || k'.phase.Busy?)
    case Busy(_) => k'.res == k.res && (k'.phase.Busy? || k'.phase.Answered?)
    case Answered(_, err) =>
      && k'.res == Counted(k.res, err)
      && if err == "OK" || err == "ErrMaybe" then k'.phase == Head else k'.phase.Busy?
    case Finished => false
  }

  ghost predicate MoveAt<L(!new), B(!new)>(trace: seq<Client<L, B>>, i: nat)
    requires i < |trace| - 1
  {
    ClientMove(trace[i], trace[i + 1])
  }

  // The states of one client along a run.
  ghost predicate IsTrace<L(!new), B(!new)>(trace: seq<Client<L, B>>)
  {
    && trace != [] && trace[0].res == ClntRes(0, 0) && trace[0].phase == Head
    && forall i: nat :: i < |trace| - 1 ==> MoveAt(trace, i)
  }

  ghost predicate Answer<L(!new), B(!new)>(k: Client<L, B>, err: string)
  {
    k.phase.Answered? && k.phase.err == err
  }

  // How many of the client's attempts were answered with err.
  ghost function Answers<L(!new), B(!new)>(trace: seq<Client<L, B>>, err: string): nat
  {
    if |trace| < 2 then 0
    else
      var n := |trace| - 1;
      Answers(trace[..n], err) + if trace[n - 1].phase.Busy? && Answer(trace[n], err) then 1 else 0
  }

  lemma TracePrefix<L(!new), B(!new)>(trace: seq<Client<L, B>>, n: nat)
    requires IsTrace(trace) && 0 < n <= |trace|
    ensures IsTrace(trace[..n])
  {
    var t := trace[..n];
    forall i: nat | i < |t| - 1 ensures MoveAt(t, i) {
      assert MoveAt(trace, i);
    }
  }

  // Main result: the counts of a client are the numbers of its OK and ErrMaybe answers, but for one that
  // it is about to count.
  lemma {:induction false} AnswersAreCounted<L(!new), B(!new)>(trace: seq<Client<L, B>>)
    requires IsTrace(trace)
    ensures var k := trace[|trace| - 1];
            && Answers(trace, "OK") == k.res.nok + (if Answer(k, "OK") then 1 else 0)
            && Answers(trace, "ErrMaybe") == k.res.nmaybe + (if Answer(k, "ErrMaybe") then 1 else 0)
  {
    var n := |trace| - 1;
    if n > 0 {
      TracePrefix(trace, n);
      AnswersAreCounted(trace[..n]);
      assert MoveAt(trace, n - 1);
    }
  }

  lemma {:induction false} NoSuchAnswer<L(!new), B(!new)>(trace: seq<Client<L, B>>, err: string)
    requires forall i :: 0 <= i < |trace| ==> !Answer(trace[i], err)
    ensures Answers(trace, err) == 0
  {
    if |trace| >= 2 {
      NoSuchAnswer(trace[..|trace| - 1], err);
    }
  }

  ghost predicate Unsettled<L(!new), B(!new)>(k: Client<L, B>)
  {
    k.phase.Busy? || (k.phase.Answered? && k.phase.err !in {"OK", "ErrMaybe"})
  }

  // A client whose attempt failed comes back to the done signal, or ends, only after an attempt that did not.
  lemma {:induction false} NeverGivesUp<L(!new), B(!new)>(trace: seq<Client<L, B>>, i: nat, j: nat)
    requires IsTrace(trace) && i <= j < |trace| && Unsettled(trace[i])
    ensures Unsettled(trace[j]) || exists m :: i < m <= j && (Answer(trace[m], "OK") || Answer(trace[m], "ErrMaybe"))
  {
    if i < j {
      NeverGivesUp(trace, i, j - 1);
      assert MoveAt(trace, j - 1);
      if !Unsettled(trace[j - 1]) {
        var m :| i < m <= j - 1 && (Answer(trace[m], "OK") || Answer(trace[m], "ErrMaybe"));
      }
    }
  }
}
