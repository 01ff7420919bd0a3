// One step of the versioned key/value model, for values of any type.
module KvStep {

  // Operation 0 is a get and 1 a put; anything else is invalid.
  datatype KvInput<V> = KvInput(op: nat, key: string, value: V, version: nat)
  datatype KvOutput<V> = KvOutput(value: V, version: nat, err: string)
  datatype KvState<V> = KvState(value: V, version: nat)

  // Is the output allowed in this state, and what is the next state?
  function Step<V(==)>(st: KvState<V>, inp: KvInput<V>, out: KvOutput<V>): (bool, KvState<V>)
  {
    if inp.op == 0 then (out.value == st.value, st)
    else if inp.op == 1 then
      if st.version == inp.version then
        (out.err == "OK" || out.err == "ErrMaybe", KvState(inp.value, st.version + 1))
      else
        (out.err == "ErrVersion" || out.err == "ErrMaybe", st)
    else (false, st)
  }

  // A put of value at version ver is answered with err and leads to next.
  predicate PutStep<V(==)>(st: KvState<V>, key: string, value: V, ver: nat, err: string, next: KvState<V>)
  {
    Step(st, KvInput(1, key, value, ver), KvOutput(value, ver, err)) == (true, next)
  }

  // A get returns the stored value together with its version.
  predicate GetStep<V(==)>(st: KvState<V>, key: string, value: V, ver: nat)
  {
    Step(st, KvInput(0, key, value, ver), KvOutput(value, ver, "OK")) == (true, st) && ver == st.version
  }

  // A put takes effect exactly at the stored version; in either case its answer may be lost, and then all
  // the client learns is ErrMaybe.
  lemma PutStepExactly<V>(st: KvState<V>, key: string, value: V, ver: nat, err: string, next: KvState<V>)
    ensures PutStep(st, key, value, ver, err, next) <==>
            || (ver == st.version && (err == "OK" || err == "ErrMaybe") && next == KvState(value, ver + 1))
            || (ver != st.version && (err == "ErrVersion" || err == "ErrMaybe") && next == st)
  {
  }

  lemma GetStepExactly<V>(st: KvState<V>, key: string, value: V, ver: nat)
    ensures GetStep(st, key, value, ver) <==> st == KvState(value, ver)
  {
  }
}

// The versioned key/value model that histories are checked against, the per-key partition of a
// history, and the theorem that checking the parts is checking the whole.
module KvModel {
  import opened KeyOrder
  import opened KvStep

  type Input = KvInput<string>
  type Output = KvOutput<string>

  datatype Operation = Operation(input: Input, output: Output, call: int, ret: int)

  const INITIAL: KvState<string> := KvState("", 0)

  // ---- Linearizability of one key and of a whole store ----

  ghost predicate RespectsTime(lin: seq<Operation>)
  {
    forall i, j :: 0 <= i < j < |lin| ==> !(lin[j].ret < lin[i].call)
  }

  predicate Legal(st: KvState<string>, lin: seq<Operation>)
    decreases lin
  {
    lin == [] ||
    var (ok, next) := Step(st, lin[0].input, lin[0].output);
    ok && Legal(next, lin[1..])
  }

  type Store = map<string, KvState<string>>

  function Lookup(store: Store, k: string): KvState<string>
  {
    if k in store then store[k] else INITIAL
  }

  predicate StoreLegal(store: Store, lin: seq<Operation>)
    decreases lin
  {
    lin == [] ||
    var k := lin[0].input.key;
    var (ok, next) := Step(Lookup(store, k), lin[0].input, lin[0].output);
    ok && StoreLegal(store[k := next], lin[1..])
  }

  ghost predicate IsLinearization(h: seq<Operation>, lin: seq<Operation>)
  {
    multiset(lin) == multiset(h) && RespectsTime(lin)
  }

  // A single-key history has a legal order.
  ghost predicate Linearizable(h: seq<Operation>)
  {
    exists lin :: IsLinearization(h, lin) && Legal(INITIAL, lin)
  }

  // A history over many keys has an order that is legal for the store of all of them.
  ghost predicate StoreLinearizable(h: seq<Operation>)
  {
    exists lin :: IsLinearization(h, lin) && StoreLegal(map[], lin)
  }

  // ---- Projection on one key ----

  function Project(h: seq<Operation>, k: string): seq<Operation>
  {
    if h == [] then []
    else (if h[0].input.key == k then [h[0]] else []) + Project(h[1..], k)
  }

  lemma {:induction false} ProjectCounted(h: seq<Operation>, k: string, o: Operation)
    ensures multiset(Project(h, k))[o] == if o.input.key == k then multiset(h)[o] else 0
  {
    if h != [] {
      ProjectCounted(h[1..], k, o);
      assert h == [h[0]] + h[1..];
    }
  }

  lemma ProjectCons(o: Operation, rest: seq<Operation>, k: string)
    ensures Project([o] + rest, k) == (if o.input.key == k then [o] else []) + Project(rest, k)
  {
  }

  lemma {:induction false} ProjectAppend(a: seq<Operation>, b: seq<Operation>, k: string)
    ensures Project(a + b, k) == Project(a, k) + Project(b, k)
  {
    if a == [] {
      assert a + b == b;
    } else {
      ProjectAppend(a[1..], b, k);
      assert (a + b)[1..] == a[1..] + b && (a + b)[0] == a[0];
      var head := if a[0].input.key == k then [a[0]] else [];
      assert head + (Project(a[1..], k) + Project(b, k)) == (head + Project(a[1..], k)) + Project(b, k);
    }
  }

  lemma ProjectMember(h: seq<Operation>, k: string, o: Operation)
    ensures o in Project(h, k) <==> o in h && o.input.key == k
  {
  }

  // No later operation returned before this one was called.
  ghost predicate Ahead(o: Operation, rest: seq<Operation>)
  {
    forall x :: x in rest ==> !(x.ret < o.call)
  }

  lemma TimeByHead(lin: seq<Operation>)
    requires lin != []
    ensures RespectsTime(lin) <==> Ahead(lin[0], lin[1..]) && RespectsTime(lin[1..])
  {
  }

  lemma {:induction false} ProjectRespectsTime(lin: seq<Operation>, k: string)
    requires RespectsTime(lin)
    ensures RespectsTime(Project(lin, k))
  {
    if lin != [] {
      TimeByHead(lin);
      ProjectRespectsTime(lin[1..], k);
      if lin[0].input.key == k {
        var p := Project(lin, k);
        assert p[1..] == Project(lin[1..], k);
        forall x | x in p[1..] ensures !(x.ret < p[0].call) {
          ProjectMember(lin[1..], k, x);
        }
        TimeByHead(p);
      }
    }
  }

  // An order is legal for the store exactly when every key's part of it is legal for that key.
  lemma {:induction false} StoreLegalByKey(store: Store, lin: seq<Operation>)
    ensures StoreLegal(store, lin) <==> forall k :: Legal(Lookup(store, k), Project(lin, k))
    decreases lin
  {
    if lin != [] {
      var k0 := lin[0].input.key;
      var (ok, next) := Step(Lookup(store, k0), lin[0].input, lin[0].output);
      var store' := store[k0 := next];
      StoreLegalByKey(store', lin[1..]);
      assert Project(lin, k0)[1..] == Project(lin[1..], k0);
      assert Legal(Lookup(store, k0), Project(lin, k0)) <==> ok && Legal(Lookup(store', k0), Project(lin[1..], k0));
      forall k | k != k0
        ensures Legal(Lookup(store, k), Project(lin, k)) <==> Legal(Lookup(store', k), Project(lin[1..], k))
      {
        assert Project(lin, k) == Project(lin[1..], k);
      }
    }
  }

  // ---- Merging per-key orders ----

  // Take the head that was called first.
  function Merge(a: seq<Operation>, b: seq<Operation>): seq<Operation>
    decreases |a| + |b|
  {
    if a == [] then b
    else if b == [] then a
    else if a[0].call <= b[0].call then [a[0]] + Merge(a[1..], b)
    else [b[0]] + Merge(a, b[1..])
  }

  ghost predicate Completed(h: seq<Operation>)
  {
    forall i :: 0 <= i < |h| ==> h[i].call <= h[i].ret
  }

  lemma CountCons(o: Operation, rest: seq<Operation>)
    ensures multiset([o] + rest) == multiset{o} + multiset(rest)
  {
  }

  lemma {:induction false} MergeKeepsAll(a: seq<Operation>, b: seq<Operation>)
    ensures multiset(Merge(a, b)) == multiset(a) + multiset(b)
    decreases |a| + |b|
  {
    if a != [] && b != [] {
      if a[0].call <= b[0].call {
        MergeKeepsAll(a[1..], b);
        CountCons(a[0], Merge(a[1..], b));
        CountCons(a[0], a[1..]);
        assert a == [a[0]] + a[1..];
      } else {
        MergeKeepsAll(a, b[1..]);
        CountCons(b[0], Merge(a, b[1..]));
        CountCons(b[0], b[1..]);
        assert b == [b[0]] + b[1..];
      }
    }
  }

  lemma MergeMember(a: seq<Operation>, b: seq<Operation>, x: Operation)
    ensures x in Merge(a, b) <==> x in a || x in b
  {
  }

  lemma {:induction false} MergeRespectsTime(a: seq<Operation>, b: seq<Operation>)
    requires RespectsTime(a) && RespectsTime(b) && Completed(a) && Completed(b)
    ensures RespectsTime(Merge(a, b))
    decreases |a| + |b|
  {
    if a != [] && b != [] {
      var m := Merge(a, b);
      TimeByHead(a);
      TimeByHead(b);
      if a[0].call <= b[0].call {
        assert m[1..] == Merge(a[1..], b);
        forall o | o in m[1..] ensures o in a[1..] || o in b {
          MergeMember(a[1..], b, o);
        }
        FirstCalledGoesFirst(a, b, m[1..]);
        MergeRespectsTime(a[1..], b);
      } else {
        assert m[1..] == Merge(a, b[1..]);
        forall o | o in m[1..] ensures o in b[1..] || o in a {
          MergeMember(a, b[1..], o);
        }
        FirstCalledGoesFirst(b, a, m[1..]);
        MergeRespectsTime(a, b[1..]);
      }
      TimeByHead(m);
    }
  }

  lemma FirstCalledGoesFirst(x: seq<Operation>, y: seq<Operation>, rest: seq<Operation>)
    requires x != [] && y != [] && x[0].call <= y[0].call
    requires RespectsTime(x) && RespectsTime(y) && Completed(y)
    requires forall o :: o in rest ==> o in x[1..] || o in y
    ensures Ahead(x[0], rest)
  {
  }

  // Merging with operations of a key that a does not touch leaves both parts in order.
  lemma {:induction false} MergeProjects(a: seq<Operation>, b: seq<Operation>, key: string, k: string)
    requires forall i :: 0 <= i < |a| ==> a[i].input.key != key
    requires forall i :: 0 <= i < |b| ==> b[i].input.key == key
    ensures Project(Merge(a, b), k) == if k == key then b else Project(a, k)
    decreases |a| + |b|
  {
    if a == [] {
      ProjectOwn(b, key, k);
    } else if b == [] {
      ProjectForeign(a, key);
    } else if a[0].call <= b[0].call {
      MergeProjects(a[1..], b, key, k);
      ProjectCons(a[0], Merge(a[1..], b), k);
      ProjectCons(a[0], a[1..], k);
      assert a == [a[0]] + a[1..];
    } else {
      MergeProjects(a, b[1..], key, k);
      ProjectCons(b[0], Merge(a, b[1..]), k);
      assert b == [b[0]] + b[1..];
    }
  }

  lemma {:induction false} ProjectOwn(b: seq<Operation>, key: string, k: string)
    requires forall i :: 0 <= i < |b| ==> b[i].input.key == key
    ensures Project(b, k) == if k == key then b else []
  {
    if b != [] {
      ProjectOwn(b[1..], key, k);
      assert b == [b[0]] + b[1..];
    }
  }

  lemma {:induction false} ProjectForeign(a: seq<Operation>, key: string)
    requires forall i :: 0 <= i < |a| ==> a[i].input.key != key
    ensures Project(a, key) == []
  {
    if a != [] {
      ProjectForeign(a[1..], key);
    }
  }

  // ---- Partition ----

  // The parts, in the order of their keys, are the projections on the keys that occur.
  ghost predicate IsPartition(h: seq<Operation>, keys: seq<string>, parts: seq<seq<Operation>>)
  {
    && |parts| == |keys|
    && (forall i, j :: 0 <= i < j < |keys| ==> KeyLess(keys[i], keys[j]))
    && (forall i :: 0 <= i < |h| ==> h[i].input.key in keys)
    && (forall i :: 0 <= i < |keys| ==> parts[i] == Project(h, keys[i]) && parts[i] != [])
  }

  lemma NoKeys(keys: set<string>)
    ensures keys == {} || exists k :: k in keys
  {
  }

  ghost predicate IsFirst(keys: set<string>, k: string)
  {
    k in keys && forall x :: x in keys && x != k ==> KeyLess(k, x)
  }

  lemma {:induction false} FirstKeyExists(keys: set<string>)
    requires keys != {}
    ensures exists k :: IsFirst(keys, k)
  {
    NoKeys(keys);
    var x :| x in keys;
    if keys == {x} {
      assert IsFirst(keys, x);
    } else {
      FirstKeyExists(keys - {x});
      var y :| IsFirst(keys - {x}, y);
      KeyTotal(x, y);
      if KeyLess(x, y) {
        forall z | z in keys && z != x ensures KeyLess(x, z) {
          if z != y {
            assert z in keys - {x};
            KeyTransitive(x, y, z);
          }
        }
        assert IsFirst(keys, x);
      } else {
        assert IsFirst(keys, y);
      }
    }
  }

  method SortKeys(keys: set<string>) returns (sorted: seq<string>)
    ensures forall k :: k in sorted <==> k in keys
    ensures forall i, j :: 0 <= i < j < |sorted| ==> KeyLess(sorted[i], sorted[j])
  {
    sorted := [];
    var rest := keys;
    while rest != {}
      invariant rest <= keys
      invariant forall k :: k in sorted <==> k in keys && k !in rest
      invariant forall i, j :: 0 <= i < j < |sorted| ==> KeyLess(sorted[i], sorted[j])
      invariant forall i, k :: 0 <= i < |sorted| && k in rest ==> KeyLess(sorted[i], k)
      decreases rest
    {
      FirstKeyExists(rest);
      var x :| x in rest && forall k :: k in rest && k != x ==> KeyLess(x, k);
      sorted := sorted + [x];
      rest := rest - {x};
    }
  }

  // The operations of every key that occurs, in the order of the history.
  ghost predicate IsGrouping(h: seq<Operation>, m: map<string, seq<Operation>>)
  {
    && (forall k :: k in m ==> m[k] == Project(h, k) && m[k] != [])
    && (forall k :: k !in m ==> Project(h, k) == [])
  }

  lemma GroupOneMore(h: seq<Operation>, m: map<string, seq<Operation>>, o: Operation)
    requires IsGrouping(h, m)
    ensures IsGrouping(h + [o], m[o.input.key := (if o.input.key in m then m[o.input.key] else []) + [o]])
  {
    forall k ensures Project(h + [o], k) == Project(h, k) + if k == o.input.key then [o] else [] {
      ProjectAppend(h, [o], k);
    }
  }

  lemma GroupingHasKey(h: seq<Operation>, m: map<string, seq<Operation>>, i: nat)
    requires IsGrouping(h, m) && i < |h|
    ensures h[i].input.key in m
  {
    ProjectMember(h, h[i].input.key, h[i]);
  }

  method GroupByKey(h: seq<Operation>) returns (m: map<string, seq<Operation>>)
    ensures IsGrouping(h, m)
  {
    m := map[];
    for i := 0 to |h|
      invariant IsGrouping(h[..i], m)
    {
      var key := h[i].input.key;
      GroupOneMore(h[..i], m, h[i]);
      assert h[..i + 1] == h[..i] + [h[i]];
      m := m[key := (if key in m then m[key] else []) + [h[i]]];
    }
    assert h[..|h|] == h;
  }

  method Partition(h: seq<Operation>) returns (parts: seq<seq<Operation>>)
    ensures exists keys :: IsPartition(h, keys, parts)
  {
    var m := GroupByKey(h);
    var sorted := SortKeys(m.Keys);
    parts := [];
    for i := 0 to |sorted|
      invariant |parts| == i
      invariant forall j :: 0 <= j < i ==> parts[j] == Project(h, sorted[j]) && parts[j] != []
    {
      assert sorted[i] in m.Keys;
      parts := parts + [m[sorted[i]]];
    }
    forall i | 0 <= i < |h| ensures h[i].input.key in sorted {
      GroupingHasKey(h, m, i);
    }
    assert IsPartition(h, sorted, parts);
  }

  // All operations of the parts, one part after the other.
  function Flatten(parts: seq<seq<Operation>>): seq<Operation>
  {
    if parts == [] then [] else Flatten(parts[..|parts| - 1]) + parts[|parts| - 1]
  }

  lemma FlattenOneMore(parts: seq<seq<Operation>>, n: nat)
    requires n < |parts|
    ensures Flatten(parts[..n + 1]) == Flatten(parts[..n]) + parts[n]
    ensures multiset(Flatten(parts[..n + 1])) == multiset(Flatten(parts[..n])) + multiset(parts[n])
  {
    assert parts[..n + 1][..n] == parts[..n];
  }

  lemma PrefixMember(keys: seq<string>, n: nat, k: string)
    requires n < |keys|
    ensures k in keys[..n + 1] <==> k in keys[..n] || k == keys[n]
  {
  }

  lemma {:induction false} FlattenCounted(h: seq<Operation>, keys: seq<string>, parts: seq<seq<Operation>>,
                                          n: nat, o: Operation)
    requires IsPartition(h, keys, parts) && n <= |keys|
    ensures multiset(Flatten(parts[..n]))[o] == if o.input.key in keys[..n] then multiset(h)[o] else 0
  {
    if n > 0 {
      FlattenCounted(h, keys, parts, n - 1, o);
      FlattenOneMore(parts, n - 1);
      PrefixMember(keys, n - 1, o.input.key);
      ProjectCounted(h, keys[n - 1], o);
      KeyIsNew(keys, n - 1);
    }
  }

  lemma KeyIsNew(keys: seq<string>, n: nat)
    requires forall i, j :: 0 <= i < j < |keys| ==> KeyLess(keys[i], keys[j])
    requires n < |keys|
    ensures keys[n] !in keys[..n]
  {
    KeyIrreflexive(keys[n]);
  }

  // Partitioning loses and duplicates nothing.
  lemma PartitionKeepsAll(h: seq<Operation>, keys: seq<string>, parts: seq<seq<Operation>>)
    requires IsPartition(h, keys, parts)
    ensures multiset(Flatten(parts)) == multiset(h)
  {
    assert parts[..|keys|] == parts && keys[..|keys|] == keys;
    forall o ensures multiset(Flatten(parts))[o] == multiset(h)[o] {
      FlattenCounted(h, keys, parts, |keys|, o);
      if o in h {
        var i :| 0 <= i < |h| && h[i] == o;
        assert h[i].input.key in keys;
      }
    }
  }

  // ---- Locality ----

  // A common order for the first n parts.
  ghost predicate IsCommonOrder(keys: seq<string>, parts: seq<seq<Operation>>, n: nat, lin: seq<Operation>)
    requires n <= |keys| == |parts|
  {
    && IsLinearization(Flatten(parts[..n]), lin) && Completed(lin)
    && (forall i :: 0 <= i < |lin| ==> lin[i].input.key in keys[..n])
    && (forall k :: Legal(INITIAL, Project(lin, k)))
  }

  lemma {:induction false} CommonOrderExists(h: seq<Operation>, keys: seq<string>, parts: seq<seq<Operation>>, n: nat)
    requires IsPartition(h, keys, parts) && n <= |keys| && Completed(h)
    requires forall i :: 0 <= i < n ==> Linearizable(parts[i])
    ensures exists lin :: IsCommonOrder(keys, parts, n, lin)
  {
    if n == 0 {
      assert IsCommonOrder(keys, parts, 0, []);
    } else {
      CommonOrderExists(h, keys, parts, n - 1);
      var a :| IsCommonOrder(keys, parts, n - 1, a);
      var b :| IsLinearization(parts[n - 1], b) && Legal(INITIAL, b);
      OrderForOneMore(h, keys, parts, n - 1, a, b);
    }
  }

  lemma PartOfOneKey(h: seq<Operation>, key: string, b: seq<Operation>)
    requires Completed(h) && multiset(b) == multiset(Project(h, key))
    ensures Completed(b) && forall i :: 0 <= i < |b| ==> b[i].input.key == key
  {
    forall i | 0 <= i < |b| ensures b[i].call <= b[i].ret && b[i].input.key == key {
      assert b[i] in multiset(b);
      assert b[i] in Project(h, key);
      ProjectMember(h, key, b[i]);
    }
  }

  lemma OrderForOneMore(h: seq<Operation>, keys: seq<string>, parts: seq<seq<Operation>>, n: nat,
                        a: seq<Operation>, b: seq<Operation>)
    requires IsPartition(h, keys, parts) && n < |keys| && Completed(h)
    requires IsCommonOrder(keys, parts, n, a)
    requires IsLinearization(parts[n], b) && Legal(INITIAL, b)
    ensures IsCommonOrder(keys, parts, n + 1, Merge(a, b))
  {
    PartOfOneKey(h, keys[n], b);
    OneMoreLinearization(parts, n, a, b);
    KeyIsNew(keys, n);
    MergeIsLegal(a, b, keys[n]);
    forall k ensures k in keys[..n + 1] <==> k in keys[..n] || k == keys[n] {
      PrefixMember(keys, n, k);
    }
    MergeKeepsEach(a, b, keys[..n + 1]);
  }

  lemma OneMoreLinearization(parts: seq<seq<Operation>>, n: nat, a: seq<Operation>, b: seq<Operation>)
    requires n < |parts| && Completed(a) && Completed(b)
    requires IsLinearization(Flatten(parts[..n]), a) && IsLinearization(parts[n], b)
    ensures IsLinearization(Flatten(parts[..n + 1]), Merge(a, b))
  {
    FlattenOneMore(parts, n);
    MergeKeepsAll(a, b);
    MergeRespectsTime(a, b);
  }

  lemma MergeIsLegal(a: seq<Operation>, b: seq<Operation>, key: string)
    requires forall i :: 0 <= i < |a| ==> a[i].input.key != key
    requires forall i :: 0 <= i < |b| ==> b[i].input.key == key
    requires Legal(INITIAL, b) && forall k :: Legal(INITIAL, Project(a, k))
    ensures forall k :: Legal(INITIAL, Project(Merge(a, b), k))
  {
    forall k ensures Legal(INITIAL, Project(Merge(a, b), k)) {
      MergeProjects(a, b, key, k);
    }
  }

  lemma MergeKeepsEach(a: seq<Operation>, b: seq<Operation>, keys: seq<string>)
    requires Completed(a) && Completed(b)
    requires forall i :: 0 <= i < |a| ==> a[i].input.key in keys
    requires forall i :: 0 <= i < |b| ==> b[i].input.key in keys
    ensures Completed(Merge(a, b))
    ensures forall i :: 0 <= i < |Merge(a, b)| ==> Merge(a, b)[i].input.key in keys
  {
  }

  // Main result: a history is linearizable for the whole store exactly when each of its parts is
  // linearizable for its key.
  lemma Locality(h: seq<Operation>, keys: seq<string>, parts: seq<seq<Operation>>)
    requires IsPartition(h, keys, parts) && Completed(h)
    ensures StoreLinearizable(h) <==> forall i :: 0 <= i < |parts| ==> Linearizable(parts[i])
  {
    if StoreLinearizable(h) {
      var lin :| IsLinearization(h, lin) && StoreLegal(map[], lin);
      StoreLegalByKey(map[], lin);
      forall i | 0 <= i < |parts| ensures Linearizable(parts[i]) {
        PartOfLinearization(h, lin, keys[i]);
        assert Legal(Lookup(map[], keys[i]), Project(lin, keys[i]));
      }
    }
    if forall i :: 0 <= i < |parts| ==> Linearizable(parts[i]) {
      CommonOrderExists(h, keys, parts, |keys|);
      var lin :| IsCommonOrder(keys, parts, |keys|, lin);
      assert parts[..|keys|] == parts;
      PartitionKeepsAll(h, keys, parts);
      StoreLegalByKey(map[], lin);
    }
  }

  lemma PartOfLinearization(h: seq<Operation>, lin: seq<Operation>, k: string)
    requires IsLinearization(h, lin)
    ensures IsLinearization(Project(h, k), Project(lin, k))
  {
    ProjectRespectsTime(lin, k);
    forall o ensures multiset(Project(h, k))[o] == multiset(Project(lin, k))[o] {
      ProjectCounted(h, k, o);
      ProjectCounted(lin, k, o);
    }
  }
}
