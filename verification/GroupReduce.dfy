// The data path of MapReduce: bucketing intermediate pairs, the sort-then-group reduce loop of the
// worker and of the sequential program, and why its output does not depend on input order.
module GroupReduce {
  import opened KeyOrder

  datatype KV = KV(key: string, value: string)

  // One line of output: the key, a blank, and what Reduce returned.
  datatype Line = Line(key: string, output: string)

  type Reducer = (string, seq<string>) -> string

  ghost predicate OrderInsensitive(reducef: Reducer)
  {
    forall k, a, b :: multiset(a) == multiset(b) ==> reducef(k, a) == reducef(k, b)
  }

  // ---- Values of a key ----

  // The values of key k in s, in the order of s.
  function Values(s: seq<KV>, k: string): seq<string>
  {
    if s == [] then []
    else
      var n := |s| - 1;
      Values(s[..n], k) + if s[n].key == k then [s[n].value] else []
  }

  predicate HasKey(s: seq<KV>, k: string)
  {
    exists i :: 0 <= i < |s| && s[i].key == k
  }

  lemma {:induction false} ValuesCounted(s: seq<KV>, k: string, v: string)
    ensures multiset(Values(s, k))[v] == multiset(s)[KV(k, v)]
  {
    if s != [] {
      var n := |s| - 1;
      ValuesCounted(s[..n], k, v);
      assert s == s[..n] + [s[n]];
      assert s[n] == KV(s[n].key, s[n].value);
    }
  }

  lemma {:induction false} ValuesAppend(a: seq<KV>, b: seq<KV>, k: string)
    ensures Values(a + b, k) == Values(a, k) + Values(b, k)
  {
    if b == [] {
      assert a + b == a;
    } else {
      var n := |b| - 1;
      ValuesAppend(a, b[..n], k);
      assert (a + b)[..|a + b| - 1] == a + b[..n];
    }
  }

  lemma {:induction false} NoKeyNoValues(s: seq<KV>, k: string)
    requires !HasKey(s, k)
    ensures Values(s, k) == []
  {
    if s != [] {
      var n := |s| - 1;
      assert s[n].key != k;
      assert !HasKey(s[..n], k) by {
        assert forall i :: 0 <= i < n ==> s[..n][i] == s[i];
      }
      NoKeyNoValues(s[..n], k);
    }
  }

  lemma SameValues(a: seq<KV>, b: seq<KV>, k: string)
    requires multiset(a) == multiset(b)
    ensures multiset(Values(a, k)) == multiset(Values(b, k))
  {
    forall v ensures multiset(Values(a, k))[v] == multiset(Values(b, k))[v] {
      ValuesCounted(a, k, v);
      ValuesCounted(b, k, v);
    }
  }

  lemma SameKeys(a: seq<KV>, b: seq<KV>, k: string)
    requires multiset(a) == multiset(b)
    ensures HasKey(a, k) ==> HasKey(b, k)
  {
    if HasKey(a, k) {
      var i :| 0 <= i < |a| && a[i].key == k;
      assert a[i] in multiset(a);
      assert a[i] in b;
    }
  }

  // ---- The output of reducing s, independent of how it is computed ----

  ghost predicate StrictlyOrdered(lines: seq<Line>)
  {
    forall i, j :: 0 <= i < j < |lines| ==> KeyLess(lines[i].key, lines[j].key)
  }

  ghost predicate IsLine(s: seq<KV>, reducef: Reducer, l: Line)
  {
    HasKey(s, l.key) && l.output == reducef(l.key, Values(s, l.key))
  }

  // One line for every distinct key, in key order, each from exactly the values of that key.
  ghost predicate IsOutput(s: seq<KV>, reducef: Reducer, lines: seq<Line>)
  {
    && StrictlyOrdered(lines)
    && (forall i :: 0 <= i < |lines| ==> IsLine(s, reducef, lines[i]))
    && (forall i :: 0 <= i < |s| ==> Line(s[i].key, reducef(s[i].key, Values(s, s[i].key))) in lines)
  }

  lemma OutputHasExactlyTheLines(s: seq<KV>, reducef: Reducer, lines: seq<Line>, l: Line)
    requires IsOutput(s, reducef, lines)
    ensures l in lines <==> IsLine(s, reducef, l)
  {
  }

  lemma {:induction false} OrderedIsUnique(x: seq<Line>, y: seq<Line>)
    requires StrictlyOrdered(x) && StrictlyOrdered(y)
    requires forall l :: l in x <==> l in y
    ensures x == y
  {
    assert x == [] || x[0] in y;
    assert y == [] || y[0] in x;
    if x != [] {
      var n, m := |x| - 1, |y| - 1;
      assert x[n] == y[m] by {
        assert x[n] in y && y[m] in x;
        var i :| 0 <= i < |y| && y[i] == x[n];
        var j :| 0 <= j < |x| && x[j] == y[m];
        if i < m && j < n {
          KeyTransitive(x[j].key, x[n].key, x[j].key);
          KeyIrreflexive(x[j].key);
        }
      }
      forall l ensures l in x[..n] <==> l in y[..m] {
        DropLast(x, l);
        DropLast(y, l);
      }
      OrderedIsUnique(x[..n], y[..m]);
      assert x == x[..n] + [x[n]] && y == y[..m] + [y[m]];
    }
  }

  lemma DropLast(x: seq<Line>, l: Line)
    requires x != [] && StrictlyOrdered(x)
    ensures l in x[..|x| - 1] <==> l in x && l != x[|x| - 1]
  {
    var n := |x| - 1;
    if l in x[..n] {
      var i :| 0 <= i < n && x[..n][i] == l;
      assert x[i] == l;
      KeyIrreflexive(x[n].key);
    }
    if l in x && l != x[n] {
      var i :| 0 <= i < |x| && x[i] == l;
      assert x[..n][i] == l;
    }
  }

  // Main result: inputs that are permutations of each other produce the very same line sequence.
  lemma OutputIgnoresOrder(a: seq<KV>, b: seq<KV>, reducef: Reducer, la: seq<Line>, lb: seq<Line>)
    requires OrderInsensitive(reducef) && multiset(a) == multiset(b)
    requires IsOutput(a, reducef, la) && IsOutput(b, reducef, lb)
    ensures la == lb
  {
    forall l ensures l in la <==> l in lb {
      OutputHasExactlyTheLines(a, reducef, la, l);
      OutputHasExactlyTheLines(b, reducef, lb, l);
      SameLine(a, b, reducef, l);
    }
    OrderedIsUnique(la, lb);
  }

  lemma SameLine(a: seq<KV>, b: seq<KV>, reducef: Reducer, l: Line)
    requires OrderInsensitive(reducef) && multiset(a) == multiset(b)
    ensures IsLine(a, reducef, l) <==> IsLine(b, reducef, l)
  {
    SameKeys(a, b, l.key);
    SameKeys(b, a, l.key);
    SameValues(a, b, l.key);
  }

  lemma {:induction false} OutputTransfers(a: seq<KV>, b: seq<KV>, reducef: Reducer, lines: seq<Line>)
    requires OrderInsensitive(reducef) && multiset(a) == multiset(b) && IsOutput(a, reducef, lines)
    ensures IsOutput(b, reducef, lines)
  {
    forall i | 0 <= i < |lines| ensures IsLine(b, reducef, lines[i]) {
      SameLine(a, b, reducef, lines[i]);
    }
    forall i | 0 <= i < |b| ensures Line(b[i].key, reducef(b[i].key, Values(b, b[i].key))) in lines {
      var l := Line(b[i].key, reducef(b[i].key, Values(b, b[i].key)));
      assert IsLine(b, reducef, l);
      SameLine(a, b, reducef, l);
      OutputHasExactlyTheLines(a, reducef, lines, l);
    }
  }

  // ---- The reduce loops ----

  ghost predicate SortedByKey(s: seq<KV>)
  {
    forall i, j :: 0 <= i < j < |s| ==> s[i].key == s[j].key || KeyLess(s[i].key, s[j].key)
  }

  // Any result a sort by key may produce; equal keys may end up in any order.
  ghost predicate IsSortOf(s: seq<KV>, t: seq<KV>)
  {
    multiset(t) == multiset(s) && SortedByKey(t)
  }

  // A block s[i..j] of equal keys is delimited: earlier keys are smaller and later ones larger.
  ghost predicate IsBlock(s: seq<KV>, i: nat, j: nat)
  {
    && i < j <= |s|
    && (forall k :: 0 <= k < i ==> KeyLess(s[k].key, s[i].key))
    && (forall k :: i <= k < j ==> s[k].key == s[i].key)
    && (forall k :: j <= k < |s| ==> KeyLess(s[i].key, s[k].key))
  }

  lemma {:induction false} SingleKeyValues(s: seq<KV>, k: string)
    requires forall i :: 0 <= i < |s| ==> s[i].key == k
    ensures |Values(s, k)| == |s| && forall i :: 0 <= i < |s| ==> Values(s, k)[i] == s[i].value
  {
    if s != [] {
      SingleKeyValues(s[..|s| - 1], k);
    }
  }

  lemma MiddleValues(a: seq<KV>, b: seq<KV>, c: seq<KV>, k: string)
    requires !HasKey(a, k) && !HasKey(c, k)
    ensures Values(a + (b + c), k) == Values(b, k)
  {
    ValuesAppend(a, b + c, k);
    ValuesAppend(b, c, k);
    NoKeyNoValues(a, k);
    NoKeyNoValues(c, k);
  }

  lemma KeyOnlyInBlock(s: seq<KV>, i: nat, j: nat)
    requires IsBlock(s, i, j)
    ensures !HasKey(s[..i], s[i].key) && !HasKey(s[j..], s[i].key)
  {
    var key := s[i].key;
    KeyIrreflexive(key);
    forall k | 0 <= k < |s[j..]| ensures s[j..][k].key != key {
      assert s[j..][k] == s[j + k];
    }
  }

  lemma BlockValues(s: seq<KV>, i: nat, j: nat)
    requires IsBlock(s, i, j)
    ensures |Values(s, s[i].key)| == j - i
    ensures forall k :: i <= k < j ==> Values(s, s[i].key)[k - i] == s[k].value
  {
    var key := s[i].key;
    KeyOnlyInBlock(s, i, j);
    assert s == s[..i] + (s[i..j] + s[j..]);
    MiddleValues(s[..i], s[i..j], s[j..], key);
    SingleKeyValues(s[i..j], key);
    forall k | i <= k < j ensures Values(s, key)[k - i] == s[k].value {
      assert s[i..j][k - i] == s[k];
    }
  }

  // The lines written once the pairs before i have been reduced.
  ghost predicate ReducedUpTo(s: seq<KV>, reducef: Reducer, i: nat, lines: seq<Line>)
  {
    && i <= |s|
    && StrictlyOrdered(lines)
    && (forall k :: 0 <= k < |lines| ==> IsLine(s, reducef, lines[k]))
    && (forall k :: 0 <= k < i ==> Line(s[k].key, reducef(s[k].key, Values(s, s[k].key))) in lines)
    && (forall k, m :: 0 <= k < |lines| && i <= m < |s| ==> KeyLess(lines[k].key, s[m].key))
    && (forall k, m :: 0 <= k < i <= m < |s| ==> KeyLess(s[k].key, s[m].key))
  }

  lemma ReduceBlock(s: seq<KV>, reducef: Reducer, i: nat, j: nat, lines: seq<Line>, vals: seq<string>)
    requires SortedByKey(s) && ReducedUpTo(s, reducef, i, lines)
    requires i < j <= |s|
    requires forall k :: i <= k < j ==> s[k].key == s[i].key
    requires j < |s| ==> s[j].key != s[i].key
    requires |vals| == j - i && forall k :: i <= k < j ==> vals[k - i] == s[k].value
    ensures ReducedUpTo(s, reducef, j, lines + [Line(s[i].key, reducef(s[i].key, vals))])
  {
    BlockEnds(s, i, j);
    BlockValues(s, i, j);
    var all := Values(s, s[i].key);
    assert vals == all by {
      forall n | 0 <= n < |vals| ensures vals[n] == all[n] {
        assert vals[(i + n) - i] == s[i + n].value == all[(i + n) - i];
      }
    }
    var l := Line(s[i].key, reducef(s[i].key, vals));
    var more := lines + [l];
    assert IsLine(s, reducef, l);
    forall k | 0 <= k < j
      ensures Line(s[k].key, reducef(s[k].key, Values(s, s[k].key))) in more
    {
      if i <= k {
        assert more[|lines|] == l;
      }
    }
    forall k, m | 0 <= k < j <= m < |s| ensures KeyLess(s[k].key, s[m].key) {
    }
  }

  lemma BlockEnds(s: seq<KV>, i: nat, j: nat)
    requires SortedByKey(s) && i < j <= |s|
    requires forall k :: 0 <= k < i ==> KeyLess(s[k].key, s[i].key)
    requires forall k :: i <= k < j ==> s[k].key == s[i].key
    requires j < |s| ==> s[j].key != s[i].key
    ensures IsBlock(s, i, j)
  {
    forall k | j <= k < |s| ensures KeyLess(s[i].key, s[k].key) {
      if k > j {
        if s[j].key != s[k].key {
          KeyTransitive(s[i].key, s[j].key, s[k].key);
        }
      }
    }
  }

  // The worker's loop: the values of a block are collected while looking for its end.
  method WorkerReduce(s: seq<KV>, reducef: Reducer) returns (lines: seq<Line>)
    requires SortedByKey(s)
    ensures IsOutput(s, reducef, lines)
  {
    lines := [];
    var i := 0;
    while i < |s|
      invariant ReducedUpTo(s, reducef, i, lines)
    {
      var j := i + 1;
      var vals := [s[i].value];
      while j < |s| && s[j].key == s[i].key
        invariant i < j <= |s| && |vals| == j - i
        invariant forall k :: i <= k < j ==> s[k].key == s[i].key && vals[k - i] == s[k].value
      {
        vals := vals + [s[j].value];
        j := j + 1;
      }
      ReduceBlock(s, reducef, i, j, lines, vals);
      lines := lines + [Line(s[i].key, reducef(s[i].key, vals))];
      i := j;
    }
  }

  // The sequential program's loop: first the end of the block, then its values.
  method SequentialReduce(s: seq<KV>, reducef: Reducer) returns (lines: seq<Line>)
    requires SortedByKey(s)
    ensures IsOutput(s, reducef, lines)
  {
    lines := [];
    var i := 0;
    while i < |s|
      invariant ReducedUpTo(s, reducef, i, lines)
    {
      var j := i + 1;
      while j < |s| && s[j].key == s[i].key
        invariant i < j <= |s|
        invariant forall k :: i <= k < j ==> s[k].key == s[i].key
      {
        j := j + 1;
      }
      var vals := [];
      for k := i to j
        invariant |vals| == k - i
        invariant forall m :: i <= m < k ==> vals[m - i] == s[m].value
      {
        vals := vals + [s[k].value];
      }
      ReduceBlock(s, reducef, i, j, lines, vals);
      lines := lines + [Line(s[i].key, reducef(s[i].key, vals))];
      i := j;
    }
  }

  // ---- There is always a sort and an output ----

  predicate KeyAtMost(a: string, b: string)
  {
    a == b || KeyLess(a, b)
  }

  function InsertByKey(s: seq<KV>, kv: KV): seq<KV>
  {
    if s == [] || KeyAtMost(kv.key, s[0].key) then [kv] + s
    else [s[0]] + InsertByKey(s[1..], kv)
  }

  lemma {:induction false} InsertAdds(s: seq<KV>, kv: KV)
    ensures multiset(InsertByKey(s, kv)) == multiset(s) + multiset{kv}
  {
    if s != [] && !KeyAtMost(kv.key, s[0].key) {
      InsertAdds(s[1..], kv);
      assert s == [s[0]] + s[1..];
    }
  }

  lemma LeastInFront(x: KV, rest: seq<KV>)
    requires SortedByKey(rest) && forall k :: 0 <= k < |rest| ==> KeyAtMost(x.key, rest[k].key)
    ensures SortedByKey([x] + rest)
  {
  }

  lemma FirstIsLeast(s: seq<KV>, x: KV, k: nat)
    requires SortedByKey(s) && k < |s| && KeyAtMost(x.key, s[0].key)
    ensures KeyAtMost(x.key, s[k].key)
  {
    if k > 0 && x.key != s[0].key && s[0].key != s[k].key {
      KeyTransitive(x.key, s[0].key, s[k].key);
    }
  }

  lemma {:induction false} InsertKeepsSorted(s: seq<KV>, kv: KV)
    requires SortedByKey(s)
    ensures SortedByKey(InsertByKey(s, kv))
  {
    if s == [] || KeyAtMost(kv.key, s[0].key) {
      forall k | 0 <= k < |s| ensures KeyAtMost(kv.key, s[k].key) {
        FirstIsLeast(s, kv, k);
      }
      LeastInFront(kv, s);
    } else {
      var rest := InsertByKey(s[1..], kv);
      InsertKeepsSorted(s[1..], kv);
      forall k | 0 <= k < |rest| ensures KeyAtMost(s[0].key, rest[k].key) {
        InsertAdds(s[1..], kv);
        KeyTotal(kv.key, s[0].key);
        assert rest[k] in multiset(rest);
        assert rest[k] in s[1..] || rest[k] == kv;
      }
      LeastInFront(s[0], rest);
    }
  }

  lemma {:induction false} SortExists(s: seq<KV>) returns (t: seq<KV>)
    ensures IsSortOf(s, t)
  {
    if s == [] {
      t := [];
    } else {
      var n := |s| - 1;
      var rest := SortExists(s[..n]);
      InsertKeepsSorted(rest, s[n]);
      InsertAdds(rest, s[n]);
      t := InsertByKey(rest, s[n]);
      assert s == s[..n] + [s[n]];
    }
  }

  lemma {:induction false} OutputFrom(s: seq<KV>, reducef: Reducer, i: nat, lines: seq<Line>) returns (all: seq<Line>)
    requires SortedByKey(s) && ReducedUpTo(s, reducef, i, lines)
    ensures IsOutput(s, reducef, all)
    decreases |s| - i
  {
    if i == |s| {
      all := lines;
    } else {
      var j := i + 1;
      while j < |s| && s[j].key == s[i].key
        invariant i < j <= |s| && forall k :: i <= k < j ==> s[k].key == s[i].key
      {
        j := j + 1;
      }
      var vals := seq(j - i, (n: nat) requires n < j - i => s[i + n].value);
      ReduceBlock(s, reducef, i, j, lines, vals);
      all := OutputFrom(s, reducef, j, lines + [Line(s[i].key, reducef(s[i].key, vals))]);
    }
  }

  lemma OutputExists(s: seq<KV>, reducef: Reducer) returns (sorted: seq<KV>, lines: seq<Line>)
    ensures IsSortOf(s, sorted) && IsOutput(sorted, reducef, lines)
  {
    sorted := SortExists(s);
    lines := OutputFrom(sorted, reducef, 0, []);
  }

  // ---- Bucketing ----

  // The pairs of s that belong to reduce task r, in the order of s.
  function Bucket(s: seq<KV>, hash: string -> nat, nReduce: nat, r: nat): seq<KV>
    requires nReduce > 0
  {
    if s == [] then []
    else
      var n := |s| - 1;
      Bucket(s[..n], hash, nReduce, r) + if hash(s[n].key) % nReduce == r then [s[n]] else []
  }

  method WriteBuckets(kvs: seq<KV>, hash: string -> nat, nReduce: nat) returns (buckets: seq<seq<KV>>)
    requires nReduce > 0
    ensures |buckets| == nReduce
    ensures forall r :: 0 <= r < nReduce ==> buckets[r] == Bucket(kvs, hash, nReduce, r)
  {
    buckets := seq(nReduce, r => []);
    for i := 0 to |kvs|
      invariant |buckets| == nReduce
      invariant forall r :: 0 <= r < nReduce ==> buckets[r] == Bucket(kvs[..i], hash, nReduce, r)
    {
      assert kvs[..i + 1][..i] == kvs[..i];
      var r := hash(kvs[i].key) % nReduce;
      buckets := buckets[r := buckets[r] + [kvs[i]]];
    }
    assert kvs[..|kvs|] == kvs;
  }

  // Bucketing loses, invents and misplaces nothing.
  lemma {:induction false} BucketCounted(s: seq<KV>, hash: string -> nat, nReduce: nat, r: nat, kv: KV)
    requires nReduce > 0
    ensures multiset(Bucket(s, hash, nReduce, r))[kv] == if hash(kv.key) % nReduce == r then multiset(s)[kv] else 0
  {
    if s != [] {
      var n := |s| - 1;
      BucketCounted(s[..n], hash, nReduce, r, kv);
      assert s == s[..n] + [s[n]];
    }
  }

  lemma SameBucket(a: seq<KV>, b: seq<KV>, hash: string -> nat, nReduce: nat, r: nat)
    requires nReduce > 0 && multiset(a) == multiset(b)
    ensures multiset(Bucket(a, hash, nReduce, r)) == multiset(Bucket(b, hash, nReduce, r))
  {
    forall kv ensures multiset(Bucket(a, hash, nReduce, r))[kv] == multiset(Bucket(b, hash, nReduce, r))[kv] {
      BucketCounted(a, hash, nReduce, r, kv);
      BucketCounted(b, hash, nReduce, r, kv);
    }
  }

  lemma {:induction false} BucketAppend(a: seq<KV>, b: seq<KV>, hash: string -> nat, nReduce: nat, r: nat)
    requires nReduce > 0
    ensures Bucket(a + b, hash, nReduce, r) == Bucket(a, hash, nReduce, r) + Bucket(b, hash, nReduce, r)
  {
    if b == [] {
      assert a + b == a;
    } else {
      var n := |b| - 1;
      BucketAppend(a, b[..n], hash, nReduce, r);
      assert (a + b)[..|a + b| - 1] == a + b[..n];
    }
  }

  // A key's own bucket holds all its values, and no other bucket holds the key.
  lemma {:induction false} BucketValues(s: seq<KV>, hash: string -> nat, nReduce: nat, r: nat, k: string)
    requires nReduce > 0
    ensures hash(k) % nReduce == r ==> Values(Bucket(s, hash, nReduce, r), k) == Values(s, k)
  {
    if s != [] {
      var n := |s| - 1;
      var last := if hash(s[n].key) % nReduce == r then [s[n]] else [];
      BucketValues(s[..n], hash, nReduce, r, k);
      ValuesAppend(Bucket(s[..n], hash, nReduce, r), last, k);
      ValuesOfOne(s[n], k);
    }
  }

  lemma ValuesOfOne(kv: KV, k: string)
    ensures Values([kv], k) == (if kv.key == k then [kv.value] else [])
    ensures HasKey([kv], k) <==> kv.key == k
  {
  }

  lemma {:induction false} BucketKeys(s: seq<KV>, hash: string -> nat, nReduce: nat, r: nat, k: string)
    requires nReduce > 0
    ensures HasKey(Bucket(s, hash, nReduce, r), k) <==> HasKey(s, k) && hash(k) % nReduce == r
  {
    if s != [] {
      var n := |s| - 1;
      var last := if hash(s[n].key) % nReduce == r then [s[n]] else [];
      BucketKeys(s[..n], hash, nReduce, r, k);
      KeysAppend(Bucket(s[..n], hash, nReduce, r), last, k);
      KeysAppend(s[..n], [s[n]], k);
      ValuesOfOne(s[n], k);
      assert s == s[..n] + [s[n]];
    }
  }

  lemma KeysAppend(a: seq<KV>, b: seq<KV>, k: string)
    ensures HasKey(a + b, k) <==> HasKey(a, k) || HasKey(b, k)
  {
    if HasKey(a, k) {
      var i :| 0 <= i < |a| && a[i].key == k;
      assert (a + b)[i].key == k;
    }
    if HasKey(b, k) {
      var i :| 0 <= i < |b| && b[i].key == k;
      assert (a + b)[|a| + i].key == k;
    }
    if HasKey(a + b, k) {
      var i :| 0 <= i < |a + b| && (a + b)[i].key == k;
      assert if i < |a| then a[i].key == k else b[i - |a|].key == k;
    }
  }
}
