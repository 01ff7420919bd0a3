// The mutable shard configuration: analysis, rebalancing, joins, leaves and the checker.
module ShardConfiguration {
  import opened SetSums
  import opened ShardSpec
  import opened ShardRun

  // The sentinel that starts every minimum must exceed every possible load.
  const LEAST_SENTINEL := 257
  const MAX_SHARDS := 256

  datatype Outcome = Changed | Refused | Fatal

  function CountOf(counts: map<int, int>, g: int): int
  {
    if g in counts then counts[g] else 0
  }

  method CountShards(shards: array<int>) returns (counts: map<int, int>)
    ensures forall g :: CountOf(counts, g) == Load(shards[..], g)
  {
    counts := map[];
    for i := 0 to shards.Length
      invariant forall g :: CountOf(counts, g) == Load(shards[..i], g)
    {
      assert shards[..i + 1] == shards[..i] + [shards[i]];
      var x := shards[i];
      var more := counts[x := CountOf(counts, x) + 1];
      assert forall g :: CountOf(more, g) == CountOf(counts, g) + if g == x then 1 else 0;
      counts := more;
    }
    assert shards[..] == shards[..shards.Length];
  }

  lemma {:induction false} SmallestExists(s: set<int>)
    requires s != {}
    ensures exists x :: x in s && forall y :: y in s ==> x <= y
  {
    var x := Pick(s);
    if s != {x} {
      SmallestExists(s - {x});
      var z :| z in s - {x} && forall y :: y in s - {x} ==> z <= y;
      var m := if x <= z then x else z;
      assert forall y :: y in s ==> y == x || y in s - {x};
      assert m in s && forall y :: y in s ==> m <= y;
    }
  }

  // The group ids in increasing order, which makes the analysis independent of map iteration order.
  method SortedIds(ids: set<int>) returns (sorted: seq<int>)
    ensures forall g :: g in sorted <==> g in ids
    ensures forall i, j :: 0 <= i < j < |sorted| ==> sorted[i] < sorted[j]
  {
    sorted := [];
    var rest := ids;
    while rest != {}
      invariant rest <= ids
      invariant forall g :: g in sorted <==> g in ids && g !in rest
      invariant forall i, j :: 0 <= i < j < |sorted| ==> sorted[i] < sorted[j]
      invariant forall i, g :: 0 <= i < |sorted| && g in rest ==> sorted[i] < g
      decreases rest
    {
      SmallestExists(rest);
      var x :| x in rest && forall y :: y in rest ==> x <= y;
      sorted := sorted + [x];
      rest := rest - {x};
    }
  }

  class ShardConfig {
    var num: nat
    const shards: array<int>
    var groups: map<int, seq<string>>

    ghost predicate Valid()
    {
      shards.Length <= MAX_SHARDS
    }

    ghost function View(): Config
      reads this, shards
    {
      Config(num, shards[..], groups)
    }

    constructor (nShards: nat)
      requires nShards <= MAX_SHARDS
      ensures Valid() && fresh(shards) && View() == Initial(nShards)
      ensures num == 0 && groups == map[] && shards.Length == nShards
      ensures forall s :: 0 <= s < nShards ==> shards[s] == 0
    {
      num := 0;
      shards := new int[nShards](i => 0);
      groups := map[];
    }

    // Most and least loaded groups with their loads; both ids are -1 if there is no group.
    method Analyze() returns (mg: int, mn: int, lg: int, ln: int)
      requires Valid()
      ensures groups.Keys == {} ==> (mg, mn, lg, ln) == (-1, -1, -1, 257)
      ensures groups.Keys != {} ==> IsMost(shards[..], groups.Keys, mg) && mn == Load(shards[..], mg)
      ensures groups.Keys != {} ==> IsLeast(shards[..], groups.Keys, lg) && ln == Load(shards[..], lg)
      ensures forall h :: h in groups ==> ln <= multiset(shards[..])[h] <= mn
      ensures forall h :: h in groups && multiset(shards[..])[h] == ln ==> lg <= h
      ensures forall h :: h in groups && multiset(shards[..])[h] == mn ==> mg <= h
    {
      var counts := CountShards(shards);
      mg, mn, lg, ln := -1, -1, -1, LEAST_SENTINEL;
      var ids := SortedIds(groups.Keys);
      if groups.Keys != {} {
        assert ids != [] by { assert Pick(groups.Keys) in ids; }
      }
      assert forall g :: Load(shards[..], g) <= |shards[..]|;
      for i := 0 to |ids|
        invariant i == 0 ==> (mg, mn, lg, ln) == (-1, -1, -1, LEAST_SENTINEL)
        invariant i > 0 ==> lg in ids[..i] && ln == Load(shards[..], lg)
        invariant i > 0 ==> mg in ids[..i] && mn == Load(shards[..], mg)
        invariant forall j :: 0 <= j < i ==>
                                ln < Load(shards[..], ids[j]) || (ln == Load(shards[..], ids[j]) && lg <= ids[j])
        invariant forall j :: 0 <= j < i ==>
                                mn > Load(shards[..], ids[j]) || (mn == Load(shards[..], ids[j]) && mg <= ids[j])
      {
        var g := ids[i];
        if CountOf(counts, g) < ln {
          ln, lg := CountOf(counts, g), g;
        }
        if CountOf(counts, g) > mn {
          mn, mg := CountOf(counts, g), g;
        }
      }
      assert ids[..|ids|] == ids;
      forall h | h in groups.Keys
        ensures ln < Load(shards[..], h) || (ln == Load(shards[..], h) && lg <= h)
        ensures mn > Load(shards[..], h) || (mn == Load(shards[..], h) && mg <= h)
      {
        assert h in ids;
      }
    }

    // Writes as they happen: which shard went to which group.
    static ghost function Replay(before: seq<int>, writes: seq<(nat, int)>): (now: seq<int>)
      requires forall i :: 0 <= i < |writes| ==> writes[i].0 < |before|
      ensures |now| == |before|
    {
      if writes == [] then before
      else
        var n := |writes| - 1;
        Replay(before, writes[..n])[writes[n].0 := writes[n].1]
    }

    // The log so far explains the current shards, and no shard has been written twice.
    static ghost predicate Logged(before: seq<int>, now: seq<int>, writes: seq<(nat, int)>)
    {
      && |now| == |before|
      && (forall i :: 0 <= i < |writes| ==> writes[i].0 < |before|)
      && now == Replay(before, writes)
      && (forall i :: 0 <= i < |writes| ==> now[writes[i].0] != before[writes[i].0])
      && (forall i, j :: 0 <= i < j < |writes| ==> writes[i].0 != writes[j].0)
    }

    static lemma LogWrite(before: seq<int>, now: seq<int>, writes: seq<(nat, int)>, s: nat, g: int)
      requires Logged(before, now, writes)
      requires s < |now| && now[s] == before[s] != g
      ensures Logged(before, now[s := g], writes + [(s, g)])
    {
    }

    // One iteration of the first phase: hand shard s of an absent group to the least loaded one.
    method AssignShard(s: nat, ghost before: seq<int>, ghost writes: seq<(nat, int)>)
      returns (ghost more: seq<(nat, int)>)
      requires Valid() && groups.Keys != {}
      requires s < shards.Length && shards[s] !in groups
      requires Filling(before, shards[..], groups.Keys, s) && Logged(before, shards[..], writes)
      modifies shards
      ensures shards[..] == old(shards[..])[s := Least(old(shards[..]), groups.Keys)]
      ensures Filling(before, shards[..], groups.Keys, s + 1) && Logged(before, shards[..], more)
    {
      ghost var now, all := shards[..], groups.Keys;
      FillStep(before, now, all, s);
      var _, _, lg, _ := Analyze();
      LeastIsUnique(now, all, lg);
      LogWrite(before, now, writes, s, lg);
      more := writes + [(s, lg)];
      shards[s] := lg;
      assert shards[..] == now[s := lg];
    }

    // First phase of rebalancing: hand out the shards of absent groups.
    method AssignUnassigned() returns (ghost writes: seq<(nat, int)>)
      requires Valid() && groups.Keys != {}
      modifies shards
      ensures shards[..] == Fill(old(shards[..]), groups.Keys, 0)
      ensures Filling(old(shards[..]), shards[..], groups.Keys, shards.Length)
      ensures Logged(old(shards[..]), shards[..], writes)
    {
      writes := [];
      ghost var before, all := shards[..], groups.Keys;
      for s := 0 to shards.Length
        invariant Filling(before, shards[..], all, s) && Logged(before, shards[..], writes)
        invariant Fill(before, all, 0) == Fill(shards[..], all, s)
      {
        ghost var now := shards[..];
        assert now[s] == shards[s];
        if shards[s] !in groups {
          writes := AssignShard(s, before, writes);
        } else {
          FillStep(before, now, all, s);
        }
        assert Fill(now, all, s) == Fill(shards[..], all, s + 1);
      }
    }

    // One iteration of the second phase.
    method MoveShard(mg: int, lg: int, ghost before: seq<int>, ghost writes: seq<(nat, int)>)
      returns (ghost more: seq<(nat, int)>)
      requires groups.Keys != {} && Uneven(shards[..], groups.Keys)
      requires IsMost(shards[..], groups.Keys, mg) && IsLeast(shards[..], groups.Keys, lg)
      requires Frugal(before, shards[..], groups.Keys) && Logged(before, shards[..], writes)
      modifies shards
      ensures shards[..] == MoveOne(old(shards[..]), groups.Keys)
      ensures Frugal(before, shards[..], groups.Keys) && Logged(before, shards[..], more)
    {
      ghost var now, all := shards[..], groups.Keys;
      MostIsUnique(now, all, mg);
      LeastIsUnique(now, all, lg);
      MoveTakesUntouched(before, now, all);
      MoveKeepsFrugal(before, now, all);
      var s := FindShard(mg);
      FirstIsUnique(now, mg, s);
      LogWrite(before, now, writes, s, lg);
      more := writes + [(s, lg)];
      shards[s] := lg;
      assert shards[..] == now[s := lg];
    }

    // Rebalance in place.  The result is the rebalanced function of the old shards, and with at
    // least one group every shard is written at most once on the way.
    method Rebalance() returns (ghost writes: seq<(nat, int)>)
      requires Valid()
      modifies shards
      ensures shards[..] == Rebalanced(old(shards[..]), groups.Keys)
      ensures groups.Keys != {} ==> Logged(old(shards[..]), shards[..], writes)
      ensures groups.Keys == {} ==> forall s :: 0 <= s < shards.Length ==> shards[s] == 0
    {
      writes := [];
      if |groups| < 1 {
        for s := 0 to shards.Length
          invariant forall i :: 0 <= i < s ==> shards[i] == 0
        {
          shards[s] := 0;
        }
        return;
      }
      ghost var before, all := shards[..], groups.Keys;
      assert all != {};
      writes := AssignUnassigned();
      var mg, mn, lg, ln := Analyze();
      while mn >= ln + 2
        invariant Frugal(before, shards[..], all) && Logged(before, shards[..], writes)
        invariant Rebalanced(before, all) == MoveAll(shards[..], all)
        invariant IsMost(shards[..], all, mg) && mn == Load(shards[..], mg)
        invariant IsLeast(shards[..], all, lg) && ln == Load(shards[..], lg)
        decreases Energy(shards[..], all)
      {
        MostIsUnique(shards[..], all, mg);
        LeastIsUnique(shards[..], all, lg);
        MoveLowersEnergy(shards[..], all);
        writes := MoveShard(mg, lg, before, writes);
        mg, mn, lg, ln := Analyze();
      }
      MostIsUnique(shards[..], all, mg);
      LeastIsUnique(shards[..], all, lg);
    }

    // The inner search loop: the first shard that g owns.
    method FindShard(g: int) returns (s: nat)
      requires g in shards[..]
      ensures s < shards.Length && shards[s] == g && g !in shards[..s]
    {
      s := 0;
      while shards[s] != g
        invariant s < shards.Length && g !in shards[..s]
        decreases shards.Length - s
      {
        assert shards[..] == shards[..s + 1] + shards[s + 1..];
        s := s + 1;
      }
    }

    static lemma FirstIsUnique(s: seq<int>, g: int, i: nat)
      requires i < |s| && s[i] == g && g !in s[..i]
      ensures First(s, g) == i
    {
    }

    static lemma LeastIsUnique(s: seq<int>, all: set<int>, g: int)
      requires IsLeast(s, all, g)
      ensures g == Least(s, all)
    {
    }

    static lemma MostIsUnique(s: seq<int>, all: set<int>, g: int)
      requires IsMost(s, all, g)
      ensures g == Most(s, all)
    {
    }

    static method SharesServer(xs: seq<string>, ys: seq<string>) returns (shared: bool)
      ensures shared <==> ShareServer(xs, ys)
    {
      for i := 0 to |xs|
        invariant forall k :: 0 <= k < i ==> xs[k] !in ys
      {
        for j := 0 to |ys|
          invariant forall k :: 0 <= k < j ==> ys[k] != xs[i]
        {
          if xs[i] == ys[j] {
            return true;
          }
        }
      }
      return false;
    }

    // Is one of these servers already listed by a present group?
    method InUse(list: seq<string>) returns (shared: bool)
      ensures shared <==> exists h :: h in groups && ShareServer(groups[h], list)
    {
      var others := groups.Keys;
      while others != {}
        invariant others <= groups.Keys
        invariant forall h :: h in groups && h !in others ==> !ShareServer(groups[h], list)
        decreases others
      {
        NonEmpty(others);
        var xgid :| xgid in others;
        shared := SharesServer(groups[xgid], list);
        if shared {
          return true;
        }
        others := others - {xgid};
      }
      return false;
    }

    static lemma JoinStep(start: map<int, seq<string>>, servers: map<int, seq<string>>, rest: set<int>,
                          now: map<int, seq<string>>, gid: int)
      requires Joined(start, servers, rest, now) && gid in rest && gid !in now
      requires forall h :: h in now ==> !ShareServer(now[h], servers[gid])
      ensures Joined(start, servers, rest - {gid}, now[gid := servers[gid]])
    {
    }

    static lemma JoinBlocked(start: map<int, seq<string>>, servers: map<int, seq<string>>, rest: set<int>,
                             now: map<int, seq<string>>, gid: int, h: int)
      requires Joined(start, servers, rest, now) && gid in rest && gid !in now
      requires h in now && ShareServer(now[h], servers[gid])
      ensures !Joinable(start, servers)
    {
    }

    static lemma JoinDone(start: map<int, seq<string>>, servers: map<int, seq<string>>, now: map<int, seq<string>>)
      requires Joined(start, servers, {}, now)
      ensures now == start + servers
    {
      assert now.Keys == (start + servers).Keys;
      assert forall g :: g in now ==> now[g] == (start + servers)[g];
    }

    // Map iteration order is arbitrary, so a refused join may have added any of the new groups.
    method Join(servers: map<int, seq<string>>) returns (r: Outcome)
      modifies this
      ensures r == Changed <==> Joinable(old(groups), servers)
      ensures r == Changed ==> groups == old(groups) + servers && num == old(num) + 1
      ensures r != Changed ==> num == old(num)
      ensures r == Refused ==> exists g :: g in servers && g in old(groups)
      ensures exists rest :: Joined(old(groups), servers, rest, groups)
      ensures servers == map[] ==> r == Fatal
      ensures (exists g :: g in servers && g in old(groups)) ==> r != Changed
    {
      ghost var start := groups;
      var changed := false;
      var rest := servers.Keys;
      while rest != {}
        invariant num == old(num)
        invariant Joined(start, servers, rest, groups)
        invariant changed <==> rest != servers.Keys
        decreases rest
      {
        NonEmpty(rest);
        var gid :| gid in rest;
        if gid in groups {
          assert gid in start;
          return Refused;
        }
        var shared := InUse(servers[gid]);
        if shared {
          ghost var h :| h in groups && ShareServer(groups[h], servers[gid]);
          JoinBlocked(start, servers, rest, groups, gid, h);
          return Fatal;
        }
        JoinStep(start, servers, rest, groups, gid);
        groups := groups[gid := servers[gid]];
        changed := true;
        rest := rest - {gid};
      }
      if !changed {
        assert servers.Keys == {};
        return Fatal;
      }
      JoinDone(start, servers, groups);
      num := num + 1;
      return Changed;
    }

    method Leave(gids: seq<int>) returns (r: Outcome)
      modifies this
      ensures r == Changed <==> Leavable(old(groups), gids)
      ensures r == Fatal <==> gids == []
      ensures r == Changed ==> groups == old(groups) - (set g | g in gids) && num == old(num) + 1
      ensures r != Changed ==> groups == LeavePrefix(old(groups), gids) && num == old(num)
      ensures (exists i :: 0 <= i < |gids| && (gids[i] !in old(groups) || gids[i] in gids[..i])) ==> r == Refused
    {
      var changed := false;
      for i := 0 to |gids|
        invariant num == old(num)
        invariant groups == old(groups) - (set g | g in gids[..i])
        invariant forall j :: 0 <= j < i ==> gids[j] in old(groups)
        invariant forall j, k :: 0 <= j < k < i ==> gids[j] != gids[k]
        invariant LeavePrefix(old(groups), gids) == LeavePrefix(groups, gids[i..])
        invariant changed <==> i > 0
      {
        if gids[i] !in groups {
          assert gids[i] in old(groups) ==> gids[i] in gids[..i];
          return Refused;
        }
        groups := groups - {gids[i]};
        changed := true;
        assert gids[i..][1..] == gids[i + 1..];
        assert gids[..i + 1] == gids[..i] + [gids[i]];
      }
      assert gids[..|gids|] == gids;
      if !changed {
        return Fatal;
      }
      num := num + 1;
      return Changed;
    }

    method JoinBalance(servers: map<int, seq<string>>) returns (r: Outcome)
      requires Valid()
      modifies this, shards
      ensures r == Changed <==> Enabled(old(View()), JoinOp(servers))
      ensures r == Changed ==> View() == Apply(old(View()), JoinOp(servers))
      ensures r != Changed ==> shards[..] == old(shards[..]) && num == old(num)
      ensures r == Refused ==> exists g :: g in servers && g in old(groups)
      ensures exists rest :: Joined(old(groups), servers, rest, groups)
      ensures r == Refused ==> RefusedCall(old(View()), View(), JoinOp(servers))
    {
      r := Join(servers);
      if r == Changed {
        var _ := Rebalance();
      }
    }

    method LeaveBalance(gids: seq<int>) returns (r: Outcome)
      requires Valid()
      modifies this, shards
      ensures r == Changed <==> Enabled(old(View()), LeaveOp(gids))
      ensures r == Fatal <==> gids == []
      ensures r == Changed ==> View() == Apply(old(View()), LeaveOp(gids))
      ensures r != Changed ==>
                View() == old(View()).(groups := LeavePrefix(old(groups), gids))
      ensures r == Refused ==> RefusedCall(old(View()), View(), LeaveOp(gids))
    {
      r := Leave(gids);
      if r == Changed {
        var _ := Rebalance();
      }
    }

    method IsMember(gid: int) returns (member: bool)
      ensures member <==> gid in shards[..]
    {
      for s := 0 to shards.Length
        invariant gid !in shards[..s]
      {
        if shards[s] == gid {
          return true;
        }
      }
      assert shards[..] == shards[..shards.Length];
      return false;
    }

    // The checker accepts exactly the configurations that are placed, balanced and have the
    // expected groups.
    method CheckConfig(expected: seq<int>) returns (ok: bool)
      requires Valid()
      ensures ok <==> Accepted(View(), expected)
    {
      if |groups| != |expected| {
        return false;
      }
      for i := 0 to |expected|
        invariant forall j :: 0 <= j < i ==> expected[j] in groups
      {
        if expected[i] !in groups {
          return false;
        }
      }
      if |expected| > 0 {
        for s := 0 to shards.Length
          invariant forall i :: 0 <= i < s ==> shards[i] in groups
        {
          if shards[s] !in groups {
            assert shards[..][s] !in groups.Keys;
            return false;
          }
        }
        assert Placed(shards[..], groups.Keys);
      }
      var counts := CountShards(shards);
      assert forall g :: Load(shards[..], g) <= |shards[..]|;
      var min, max := LEAST_SENTINEL, 0;
      var rest := groups.Keys;
      while rest != {}
        invariant rest <= groups.Keys
        invariant rest == groups.Keys ==> min == LEAST_SENTINEL && max == 0
        invariant rest != groups.Keys ==> exists g :: g in groups && Load(shards[..], g) == min
        invariant rest != groups.Keys ==> exists g :: g in groups && Load(shards[..], g) == max
        invariant forall g :: g in groups && g !in rest ==> min <= Load(shards[..], g) <= max
        decreases rest
      {
        NonEmpty(rest);
        var g :| g in rest;
        if CountOf(counts, g) > max {
          max := CountOf(counts, g);
        }
        if CountOf(counts, g) < min {
          min := CountOf(counts, g);
        }
        rest := rest - {g};
      }
      return !(max > min + 1);
    }
  }
}
