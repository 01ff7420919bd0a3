// Connectivity inside a server group: connecting, disconnecting and partitioning servers.
module Topology {

  // The end through which server i talks to server j.
  type Link = (nat, nat)

  predicate On(enabled: map<Link, bool>, i: nat, j: nat)
  {
    (i, j) in enabled && enabled[(i, j)]
  }

  // The k-th server other than l.
  function Other(l: nat, k: nat): nat
  {
    if k < l then k else k + 1
  }

  ghost predicate NoRepeat(p: seq<nat>)
  {
    forall i, j :: 0 <= i < j < |p| ==> p[i] != p[j]
  }

  // A majority and a minority with l in it, which together are servers 0..n-1, each once.
  ghost predicate IsSplit(n: nat, l: nat, p1: seq<nat>, p2: seq<nat>)
  {
    && NoRepeat(p1) && NoRepeat(p2)
    && (forall s :: s in p1 ==> s !in p2)
    && (forall s: nat :: s < n <==> s in p1 || s in p2)
    && l in p2 && |p1| > |p2|
  }

  // What the loop of MakePartition leaves in its two arrays.
  ghost predicate Filled(n: nat, l: nat, p1: seq<nat>, p2: seq<nat>)
  {
    && n >= 2 && l < n && |p1| == n / 2 + 1 && |p2| == n / 2
    && (forall k :: 0 <= k < |p1| ==> p1[k] == if k < n - 1 then Other(l, k) else 0)
    && (forall k :: 0 <= k < |p2| - 1 ==> p2[k] == if |p1| + k < n - 1 then Other(l, |p1| + k) else 0)
    && p2[|p2| - 1] == l
  }

  lemma FilledCovers(n: nat, l: nat, p1: seq<nat>, p2: seq<nat>)
    requires Filled(n, l, p1, p2)
    ensures l in p2 && forall s: nat :: s < n <==> s in p1 || s in p2
  {
    var h := n / 2;
    assert p2[h - 1] == l;
    forall s: nat | s < n ensures s in p1 || s in p2 {
      if s != l {
        var k := if s < l then s else s - 1;
        if k <= h {
          assert p1[k] == s;
        } else {
          assert p2[k - (h + 1)] == s;
        }
      }
    }
  }

  lemma OddSplits(n: nat, l: nat, p1: seq<nat>, p2: seq<nat>)
    requires Filled(n, l, p1, p2) && n % 2 == 1
    ensures IsSplit(n, l, p1, p2)
  {
    FilledCovers(n, l, p1, p2);
    assert n == 2 * (n / 2) + 1;
  }

  // With an even number of servers the arrays have one place too many, and some server is listed twice.
  lemma EvenOverlaps(n: nat, l: nat, p1: seq<nat>, p2: seq<nat>)
    requires Filled(n, l, p1, p2) && n % 2 == 0
    ensures !IsSplit(n, l, p1, p2)
  {
    var h := n / 2;
    assert n == 2 * h;
    if n == 2 {
      assert p1[1] == 0 && p1[0] == 1 - l && p2[0] == l;
    } else {
      assert p2[h - 2] == 0 && p2[h - 1] == l;
      assert l > 0 ==> p1[0] == 0 && p2[h - 2] in p2 && p1[0] in p1;
    }
  }

  // The servers that end up apart from those of p2.
  ghost function Away(p1: seq<nat>, p2: seq<nat>): set<nat>
  {
    set s | s in p1 && s !in p2
  }

  ghost function Members(p: seq<nat>): set<nat>
  {
    set s | s in p
  }

  lemma {:induction false} NoRepeatCount(p: seq<nat>)
    requires NoRepeat(p)
    ensures |Members(p)| == |p|
  {
    if p != [] {
      var n := |p| - 1;
      NoRepeatCount(p[..n]);
      assert Members(p) == Members(p[..n]) + {p[n]};
    }
  }

  lemma FilledFacts(n: nat, l: nat, p1: seq<nat>, p2: seq<nat>)
    requires Filled(n, l, p1, p2) && n > 2
    ensures NoRepeat(p1)
    ensures Away(p1, p2) == if n % 2 == 1 || l == 0 then Members(p1) else Members(p1) - {0}
    ensures n % 2 == 0 && l != 0 ==> 0 in p1
  {
    if n % 2 == 0 {
      var h := n / 2;
      assert p2[h - 2] == 0 && (l != 0 ==> p1[0] == 0);
    }
  }

  // What partitioning by the two lists does: every server is on a side, l with p2, and the servers apart
  // from it are a majority exactly for an odd number of servers, or when l is 0 (and there are not two).
  lemma LeaderIsInMinority(n: nat, l: nat, p1: seq<nat>, p2: seq<nat>)
    requires Filled(n, l, p1, p2)
    ensures l in p2 && forall s: nat :: s < n <==> s in p1 || s in p2
    ensures 2 * |Away(p1, p2)| > n <==> n % 2 == 1 || (l == 0 && n > 2)
  {
    FilledCovers(n, l, p1, p2);
    if n == 2 {
      assert p1[0] == 1 - l && p1[1] == 0 && p2[0] == l;
      assert Away(p1, p2) == {1 - l};
    } else {
      FilledFacts(n, l, p1, p2);
      NoRepeatCount(p1);
    }
  }

  class ServerGroup {
    const n: nat
    const connected: array<bool>
    var enabled: map<Link, bool>

    ghost predicate Valid()
    {
      connected.Length == n
    }

    constructor (n: nat)
      ensures Valid() && fresh(connected) && this.n == n
      ensures forall i, j :: !On(enabled, i, j)
    {
      this.n := n;
      connected := new bool[n](i => false);
      enabled := map[];
    }

    // Attach server i to those listed servers that are connected, in both directions.
    method Connect(i: nat, to: seq<nat>)
      requires Valid() && i < n && forall k :: 0 <= k < |to| ==> to[k] < n
      modifies this, connected
      ensures connected[..] == old(connected[..])[i := true]
      ensures forall a: nat, b: nat ::
                On(enabled, a, b) <==>
                  || old(On(enabled, a, b))
                  || (a == i && b in to && b < n && connected[b])
                  || (b == i && a in to && a < n && connected[a])
    {
      connected[i] := true;
      for j := 0 to |to|
        invariant connected[..] == old(connected[..])[i := true]
        invariant forall a: nat, b: nat ::
                    On(enabled, a, b) <==>
                      old(On(enabled, a, b)) || (a == i && b in to[..j] && b < n && connected[b])
      {
        assert to[..j + 1] == to[..j] + [to[j]];
        if connected[to[j]] {
          enabled := enabled[(i, to[j]) := true];
        }
      }
      assert to[..|to|] == to;
      for j := 0 to |to|
        invariant connected[..] == old(connected[..])[i := true]
        invariant forall a: nat, b: nat ::
                    On(enabled, a, b) <==>
                      || old(On(enabled, a, b))
                      || (a == i && b in to && b < n && connected[b])
                      || (b == i && a in to[..j] && a < n && connected[a])
      {
        assert to[..j + 1] == to[..j] + [to[j]];
        if connected[to[j]] {
          enabled := enabled[(to[j], i) := true];
        }
      }
    }

    // Detach server i from the listed servers, in both directions.
    method Disconnect(i: nat, from: seq<nat>)
      requires Valid() && i < n && forall k :: 0 <= k < |from| ==> from[k] < n
      modifies this, connected
      ensures connected[..] == old(connected[..])[i := false]
      ensures forall a: nat, b: nat ::
                On(enabled, a, b) <==>
                  old(On(enabled, a, b)) && !(a == i && b in from) && !(b == i && a in from)
    {
      connected[i] := false;
      for j := 0 to |from|
        invariant connected[..] == old(connected[..])[i := false]
        invariant forall a: nat, b: nat :: On(enabled, a, b) <==> old(On(enabled, a, b)) && !(a == i && b in from[..j])
      {
        assert from[..j + 1] == from[..j] + [from[j]];
        enabled := enabled[(i, from[j]) := false];
      }
      assert from[..|from|] == from;
      for j := 0 to |from|
        invariant connected[..] == old(connected[..])[i := false]
        invariant forall a: nat, b: nat ::
                    On(enabled, a, b) <==>
                      old(On(enabled, a, b)) && !(a == i && b in from) && !(b == i && a in from[..j])
      {
        assert from[..j + 1] == from[..j] + [from[j]];
        enabled := enabled[(from[j], i) := false];
      }
    }

    // Process server x of list own: away from the opposite list, then towards its own.
    method Regroup(x: nat, own: seq<nat>, opposite: seq<nat>)
      requires Valid() && x < n
      requires forall i :: 0 <= i < |own| ==> own[i] < n
      requires forall i :: 0 <= i < |opposite| ==> opposite[i] < n
      modifies this, connected
      ensures connected[..] == old(connected[..])[x := true]
      ensures forall a: nat, b: nat ::
                On(enabled, a, b) <==>
                  || (old(On(enabled, a, b)) && !(a == x && b in opposite) && !(b == x && a in opposite))
                  || (a == x && b in own && b < n && connected[b])
                  || (b == x && a in own && a < n && connected[a])
    {
      Disconnect(x, opposite);
      Connect(x, own);
      assert old(connected[..])[x := false][x := true] == old(connected[..])[x := true];
    }

    // All servers of a list are connected, and those that are not in the other list to each other.
    static ghost predicate Linked(p: seq<nat>, other: seq<nat>, on: map<Link, bool>, up: seq<bool>)
    {
      && (forall a :: a in p ==> a < |up| && up[a])
      && (forall a: nat, b: nat :: a in p && b in p && a !in other && b !in other ==> On(on, a, b))
    }

    // No server of q can talk to one that is in p only, either way.
    static ghost predicate Cut(p: seq<nat>, q: seq<nat>, p2: seq<nat>, on: map<Link, bool>)
    {
      forall a: nat, b: nat :: a in q && b in p && b !in p2 ==> !On(on, a, b) && !On(on, b, a)
    }

    // From any prior connectivity, the servers listed in p2 end up fully linked, so do those that are
    // in p1 only, and no link crosses; a server in both lists counts as one of p2.  Links to servers in
    // neither list are left alone.
    method Partition(p1: seq<nat>, p2: seq<nat>)
      requires Valid()
      requires forall i :: 0 <= i < |p1| ==> p1[i] < n
      requires forall i :: 0 <= i < |p2| ==> p2[i] < n
      modifies this, connected
      ensures forall a: nat, b: nat :: a in p1 + p2 && b in p1 + p2 ==> (On(enabled, a, b) <==> (a in p2 <==> b in p2))
      ensures forall a: nat, b: nat :: a !in p1 + p2 || b !in p1 + p2 ==>
                    (On(enabled, a, b) <==> old(On(enabled, a, b)))
      ensures forall i: nat :: i < n ==> connected[i] == (i in p1 + p2 || old(connected[i]))
    {
      for k := 0 to |p1|
        invariant Linked(p1[..k], p2, enabled, connected[..])
        invariant forall a: nat, b: nat :: a !in p1 + p2 || b !in p1 + p2 ==>
                        (On(enabled, a, b) <==> old(On(enabled, a, b)))
        invariant forall i: nat :: i < n ==> connected[i] == (i in p1[..k] || old(connected[i]))
      {
        assert p1[..k + 1] == p1[..k] + [p1[k]];
        ghost var was := connected[..];
        Regroup(p1[k], p1, p2);
        assert connected[..] == was[p1[k] := true];
      }
      assert p1[..|p1|] == p1;
      for k := 0 to |p2|
        invariant Linked(p1, p2, enabled, connected[..])
        invariant Linked(p2[..k], [], enabled, connected[..])
        invariant Cut(p1, p2[..k], p2, enabled)
        invariant forall a: nat, b: nat :: a !in p1 + p2 || b !in p1 + p2 ==>
                        (On(enabled, a, b) <==> old(On(enabled, a, b)))
        invariant forall i: nat :: i < n ==> connected[i] == (i in p1 + p2[..k] || old(connected[i]))
      {
        assert p2[..k + 1] == p2[..k] + [p2[k]];
        ghost var was := connected[..];
        Regroup(p2[k], p2, p1);
        assert connected[..] == was[p2[k] := true];
      }
      assert p2[..|p2|] == p2;
    }

    // Put server l into the minority.  The result is a partition exactly when the number of servers is odd.
    method MakePartition(l: nat) returns (p1: seq<nat>, p2: seq<nat>)
      requires n >= 2 && l < n
      ensures IsSplit(n, l, p1, p2) <==> n % 2 == 1
      ensures Filled(n, l, p1, p2)
    {
      p1, p2 := seq(n / 2 + 1, i => 0), seq(n / 2, i => 0);
      var j := 0;
      for i := 0 to n
        invariant |p1| == n / 2 + 1 && |p2| == n / 2
        invariant j == if i <= l then i else i - 1
        invariant forall k :: 0 <= k < |p1| ==> p1[k] == if k < j then Other(l, k) else 0
        invariant forall k :: 0 <= k < |p2| ==> p2[k] == if |p1| + k < j then Other(l, |p1| + k) else 0
      {
        if i != l {
          if j < |p1| {
            p1 := p1[j := i];
          } else {
            p2 := p2[j - |p1| := i];
          }
          j := j + 1;
        }
      }
      p2 := p2[|p2| - 1 := l];
      if n % 2 == 1 {
        OddSplits(n, l, p1, p2);
      } else {
        EvenOverlaps(n, l, p1, p2);
      }
    }
  }
}
