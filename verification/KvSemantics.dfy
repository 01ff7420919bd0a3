// What linearizability of a single-key history means for its clients.
module KvSemantics {
  import opened KvStep
  import opened KvModel

  // ---- The state along a legal order ----

  function After(st: KvState<string>, lin: seq<Operation>): KvState<string>
    decreases lin
  {
    if lin == [] then st else After(Step(st, lin[0].input, lin[0].output).1, lin[1..])
  }

  lemma {:induction false} AfterOneMore(st: KvState<string>, lin: seq<Operation>, i: nat)
    requires i < |lin|
    ensures After(st, lin[..i + 1]) == Step(After(st, lin[..i]), lin[i].input, lin[i].output).1
    decreases lin
  {
    if i > 0 {
      AfterOneMore(Step(st, lin[0].input, lin[0].output).1, lin[1..], i - 1);
      assert lin[..i + 1][1..] == lin[1..][..i] && lin[..i][1..] == lin[1..][..i - 1];
    }
  }

  lemma {:induction false} LegalAt(st: KvState<string>, lin: seq<Operation>, i: nat)
    requires Legal(st, lin) && i < |lin|
    ensures Step(After(st, lin[..i]), lin[i].input, lin[i].output).0
    decreases lin
  {
    if i > 0 {
      LegalAt(Step(st, lin[0].input, lin[0].output).1, lin[1..], i - 1);
      assert lin[..i][1..] == lin[1..][..i - 1];
    }
  }

  lemma {:induction false} VersionsGrow(st: KvState<string>, lin: seq<Operation>, i: nat, j: nat)
    requires i <= j <= |lin|
    ensures After(st, lin[..i]).version <= After(st, lin[..j]).version
  {
    if i < j {
      VersionsGrow(st, lin, i, j - 1);
      AfterOneMore(st, lin, j - 1);
    }
  }

  // ---- Puts and gets ----

  predicate IsPut(o: Operation)
  {
    o.input.op == 1
  }

  predicate IsGet(o: Operation)
  {
    o.input.op == 0
  }

  // A put that took effect, as far as its client can tell or fear.
  predicate MayHaveWritten(o: Operation, value: string, ver: nat)
  {
    IsPut(o) && o.input.value == value && o.input.version == ver && o.output.err in {"OK", "ErrMaybe"}
  }

  // The state is the initial one, or was written by a put at the version below.
  lemma {:induction false} StateWasWritten(lin: seq<Operation>, i: nat)
    requires Legal(INITIAL, lin) && i <= |lin|
    ensures var st := After(INITIAL, lin[..i]);
            if st.version == 0 then st.value == ""
            else exists q :: 0 <= q < i && MayHaveWritten(lin[q], st.value, st.version - 1)
  {
    if i > 0 {
      StateWasWritten(lin, i - 1);
      AfterOneMore(INITIAL, lin, i - 1);
      LegalAt(INITIAL, lin, i - 1);
      var before, st := After(INITIAL, lin[..i - 1]), After(INITIAL, lin[..i]);
      if st == before {
        if st.version > 0 {
          var q :| 0 <= q < i - 1 && MayHaveWritten(lin[q], st.value, st.version - 1);
        }
      } else {
        assert MayHaveWritten(lin[i - 1], st.value, st.version - 1);
      }
    }
  }

  lemma SamePlace(h: seq<Operation>, lin: seq<Operation>, i: nat) returns (a: nat)
    requires multiset(lin) == multiset(h) && i < |h|
    ensures a < |lin| && lin[a] == h[i]
  {
    assert h[i] in multiset(h);
    assert h[i] in lin;
    a :| a < |lin| && lin[a] == h[i];
  }

  lemma InTimeOrder(lin: seq<Operation>, a: nat, b: nat)
    requires RespectsTime(lin) && a < |lin| && b < |lin| && a != b && lin[a].ret < lin[b].call
    ensures a < b
  {
  }

  // No stale reads: a get called after a put had returned OK sees that put or one at a later version.
  lemma NoStaleRead(h: seq<Operation>, p: nat, g: nat)
    requires Linearizable(h) && p < |h| && g < |h| && IsPut(h[p]) && h[p].output.err == "OK" && IsGet(h[g])
    requires h[p].ret < h[g].call
    ensures exists q, ver: nat ::
              0 <= q < |h| && ver >= h[p].input.version && MayHaveWritten(h[q], h[g].output.value, ver)
  {
    var lin: seq<Operation> :| IsLinearization(h, lin) && Legal(INITIAL, lin);
    var a := SamePlace(h, lin, p);
    var b := SamePlace(h, lin, g);
    InTimeOrder(lin, a, b);
    LegalAt(INITIAL, lin, a);
    AfterOneMore(INITIAL, lin, a);
    VersionsGrow(INITIAL, lin, a + 1, b);
    LegalAt(INITIAL, lin, b);
    StateWasWritten(lin, b);
    var st := After(INITIAL, lin[..b]);
    var q :| 0 <= q < b && MayHaveWritten(lin[q], st.value, st.version - 1);
    var x := SamePlace(lin, h, q);
    assert MayHaveWritten(h[x], h[g].output.value, st.version - 1);
  }

  // No reads from nowhere: a get sees a put that was called before the get returned, or the empty value.
  lemma NoReadFromNowhere(h: seq<Operation>, g: nat)
    requires Linearizable(h) && g < |h| && IsGet(h[g])
    ensures h[g].output.value == "" ||
            exists q, ver: nat ::
              0 <= q < |h| && MayHaveWritten(h[q], h[g].output.value, ver) && h[q].call <= h[g].ret
  {
    var lin: seq<Operation> :| IsLinearization(h, lin) && Legal(INITIAL, lin);
    var b := SamePlace(h, lin, g);
    LegalAt(INITIAL, lin, b);
    StateWasWritten(lin, b);
    var st := After(INITIAL, lin[..b]);
    if st.version > 0 {
      var q :| 0 <= q < b && MayHaveWritten(lin[q], st.value, st.version - 1);
      assert !(lin[b].ret < lin[q].call);
      var x := SamePlace(lin, h, q);
      assert MayHaveWritten(h[x], h[g].output.value, st.version - 1);
    }
  }

  // A put at version 0 that was told ErrVersion had a rival that may have written.
  lemma RefusedPutHadRival(h: seq<Operation>, p: nat)
    requires Linearizable(h) && p < |h| && IsPut(h[p]) && h[p].output.err == "ErrVersion" && h[p].input.version == 0
    ensures exists q, value: string, ver: nat :: 0 <= q < |h| && q != p && MayHaveWritten(h[q], value, ver)
  {
    var lin: seq<Operation> :| IsLinearization(h, lin) && Legal(INITIAL, lin);
    var a := SamePlace(h, lin, p);
    LegalAt(INITIAL, lin, a);
    StateWasWritten(lin, a);
    var st := After(INITIAL, lin[..a]);
    var q :| 0 <= q < a && MayHaveWritten(lin[q], st.value, st.version - 1);
    var x := SamePlace(lin, h, q);
    assert MayHaveWritten(h[x], st.value, st.version - 1);
  }

  // ---- One winner per version ----

  lemma {:induction false} TwoPlaces(s: seq<Operation>, o: Operation) returns (a: nat, b: nat)
    requires multiset(s)[o] >= 2
    ensures a < b < |s| && s[a] == s[b] == o
  {
    var n := |s| - 1;
    assert s == s[..n] + [s[n]];
    if s[n] == o {
      assert o in s[..n];
      a :| a < n && s[..n][a] == o;
      b := n;
    } else {
      a, b := TwoPlaces(s[..n], o);
    }
  }

  lemma CountsTwice(s: seq<Operation>, i: nat, j: nat)
    requires i < j < |s| && s[i] == s[j]
    ensures multiset(s)[s[i]] >= 2
  {
    assert s == s[..j] + [s[j]] + s[j + 1..];
    assert s[i] in s[..j];
  }

  lemma DistinctPlaces(h: seq<Operation>, lin: seq<Operation>, i: nat, j: nat) returns (a: nat, b: nat)
    requires multiset(lin) == multiset(h) && i < j < |h|
    ensures a < |lin| && b < |lin| && a != b && lin[a] == h[i] && lin[b] == h[j]
  {
    if h[i] == h[j] {
      CountsTwice(h, i, j);
      a, b := TwoPlaces(lin, h[i]);
    } else {
      a := SamePlace(h, lin, i);
      b := SamePlace(h, lin, j);
    }
  }

  lemma LaterPutIsHigher(lin: seq<Operation>, a: nat, b: nat)
    requires Legal(INITIAL, lin) && a < b < |lin|
    requires IsPut(lin[a]) && IsPut(lin[b]) && lin[a].output.err == lin[b].output.err == "OK"
    ensures lin[a].input.version < lin[b].input.version
  {
    LegalAt(INITIAL, lin, a);
    AfterOneMore(INITIAL, lin, a);
    VersionsGrow(INITIAL, lin, a + 1, b);
    LegalAt(INITIAL, lin, b);
  }

  // Of all puts that name the same version at most one is told OK.
  lemma OneWinnerPerVersion(h: seq<Operation>, i: nat, j: nat)
    requires Linearizable(h) && i < j < |h|
    requires IsPut(h[i]) && IsPut(h[j]) && h[i].output.err == h[j].output.err == "OK"
    ensures h[i].input.version != h[j].input.version
  {
    var lin: seq<Operation> :| IsLinearization(h, lin) && Legal(INITIAL, lin);
    var a, b := DistinctPlaces(h, lin, i, j);
    if a < b {
      LaterPutIsHigher(lin, a, b);
    } else {
      LaterPutIsHigher(lin, b, a);
    }
  }

  // Every operation of a linearizable history is a get or a put, and a put is answered OK, ErrVersion or
  // ErrMaybe.
  lemma OnlyKnownOperations(h: seq<Operation>, i: nat)
    requires Linearizable(h) && i < |h|
    ensures IsGet(h[i]) || (IsPut(h[i]) && h[i].output.err in {"OK", "ErrVersion", "ErrMaybe"})
  {
    var lin: seq<Operation> :| IsLinearization(h, lin) && Legal(INITIAL, lin);
    var a := SamePlace(h, lin, i);
    LegalAt(INITIAL, lin, a);
  }
}
