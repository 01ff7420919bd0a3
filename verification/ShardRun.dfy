// Configurations as values, the effect of successful joins and leaves, and what every run keeps.
module ShardRun {
  import opened ShardSpec
  import opened ShardTheorems

  datatype Config = Config(num: nat, shards: seq<int>, groups: map<int, seq<string>>)

  datatype Op = JoinOp(servers: map<int, seq<string>>) | LeaveOp(gids: seq<int>)

  function Initial(nShards: nat): Config
  {
    Config(0, seq(nShards, i => 0), map[])
  }

  predicate ShareServer(a: seq<string>, b: seq<string>)
  {
    exists i :: 0 <= i < |a| && a[i] in b
  }

  // No server is listed by two groups.
  ghost predicate DisjointServers(groups: map<int, seq<string>>)
  {
    forall g, h :: g in groups && h in groups && g != h ==> !ShareServer(groups[g], groups[h])
  }

  // A join goes through when something joins, every id is new, and no server is already in use,
  // neither by a present group nor by another joining one.
  ghost predicate Joinable(groups: map<int, seq<string>>, servers: map<int, seq<string>>)
  {
    && servers != map[]
    && (forall g :: g in servers ==> g !in groups)
    && (forall g, h :: g in servers && h in groups ==> !ShareServer(groups[h], servers[g]))
    && (forall g, h :: g in servers && h in servers && g != h ==> !ShareServer(servers[h], servers[g]))
  }

  // A leave goes through when something leaves, every id is present and no id is repeated.
  ghost predicate Leavable(groups: map<int, seq<string>>, gids: seq<int>)
  {
    && gids != []
    && (forall i :: 0 <= i < |gids| ==> gids[i] in groups)
    && (forall i, j :: 0 <= i < j < |gids| ==> gids[i] != gids[j])
  }

  // The groups that are left once the longest leavable prefix of gids is gone.
  function LeavePrefix(present: map<int, seq<string>>, gids: seq<int>): map<int, seq<string>>
  {
    if gids == [] || gids[0] !in present then present
    else LeavePrefix(present - {gids[0]}, gids[1..])
  }

  // The state of a join whose ids outside rest have been added to the groups it started from.
  ghost predicate Joined(start: map<int, seq<string>>, servers: map<int, seq<string>>, rest: set<int>,
                         now: map<int, seq<string>>)
  {
    && rest <= servers.Keys
    && now.Keys == start.Keys + (servers.Keys - rest)
    && (forall g :: g in start ==> now[g] == start[g])
    && (forall g :: g in servers && g !in rest ==> g !in start && now[g] == servers[g])
    && (forall g, h :: g in servers && g !in rest && h in start ==> !ShareServer(start[h], servers[g]))
    && (forall g, h :: g in servers && g !in rest && h in servers && h !in rest && g != h ==>
          !ShareServer(servers[h], servers[g]))
  }

  ghost predicate Enabled(c: Config, op: Op)
  {
    match op
    case JoinOp(servers) => Joinable(c.groups, servers)
    case LeaveOp(gids) => Leavable(c.groups, gids)
  }

  ghost function GroupsAfter(c: Config, op: Op): map<int, seq<string>>
  {
    match op
    case JoinOp(servers) => c.groups + servers
    case LeaveOp(gids) => c.groups - (set g | g in gids)
  }

  ghost function Apply(c: Config, op: Op): Config
  {
    var groups := GroupsAfter(c, op);
    Config(c.num + 1, Rebalanced(c.shards, groups.Keys), groups)
  }

  // A refused call that does not end the process.  A join that meets a present id may have added any of
  // the others before; a leave has removed the ids before the offending one.  Nothing else changes.
  ghost predicate RefusedCall(c: Config, c': Config, op: Op)
  {
    && c' == c.(groups := c'.groups)
    && match op
       case JoinOp(servers) =>
         && (exists g :: g in servers && g in c.groups)
         && exists rest :: Joined(c.groups, servers, rest, c'.groups)
       case LeaveOp(gids) =>
         gids != [] && !Leavable(c.groups, gids) && c'.groups == LeavePrefix(c.groups, gids)
  }

  // What the configuration checker accepts, for a given list of expected groups.
  ghost predicate Accepted(c: Config, expected: seq<int>)
  {
    && |c.groups| == |expected|
    && (forall i :: 0 <= i < |expected| ==> expected[i] in c.groups)
    && (expected != [] ==> Placed(c.shards, c.groups.Keys))
    && (forall g, h :: g in c.groups && h in c.groups ==> Load(c.shards, g) <= Load(c.shards, h) + 1)
  }

  // What acceptance means: the expected groups are the present ones, each listed once, and if there are
  // any, every shard is on one of them and their loads are within one of each other.
  lemma AcceptedExactly(c: Config, expected: seq<int>)
    requires forall i, j :: 0 <= i < j < |expected| ==> expected[i] != expected[j]
    ensures Accepted(c, expected) <==>
            && (forall g :: g in expected <==> g in c.groups)
            && (c.groups.Keys == {} || Balanced(c.shards, c.groups.Keys))
  {
    DistinctListing(expected);
    var listed := set g | g in expected;
    if Accepted(c, expected) {
      forall g | g in listed ensures g in c.groups.Keys {
        var i :| 0 <= i < |expected| && expected[i] == g;
      }
      SameSize(listed, c.groups.Keys);
      assert forall g :: g in expected <==> g in listed;
      assert expected == [] ==> listed == {};
    } else if forall g :: g in expected <==> g in c.groups {
      assert listed == c.groups.Keys;
    }
  }

  lemma SameSize(a: set<int>, b: set<int>)
    requires a <= b && |a| == |b|
    ensures a == b
  {
    assert b == a + (b - a);
  }

  // A run of successful calls.
  ghost predicate IsRun(configs: seq<Config>, ops: seq<Op>)
  {
    && |configs| == |ops| + 1
    && (exists nShards :: configs[0] == Initial(nShards))
    && forall i :: 0 <= i < |ops| ==> Enabled(configs[i], ops[i]) && configs[i + 1] == Apply(configs[i], ops[i])
  }

  ghost predicate Sound(c: Config)
  {
    && DisjointServers(c.groups)
    && (c.groups.Keys != {} ==> Balanced(c.shards, c.groups.Keys))
    && (c.groups.Keys == {} ==> forall s :: 0 <= s < |c.shards| ==> c.shards[s] == 0)
  }

  lemma ShareIsSymmetric(a: seq<string>, b: seq<string>)
    ensures ShareServer(a, b) <==> ShareServer(b, a)
  {
  }

  // A successful call makes a configuration sound, balanced before or not.
  lemma ApplyKeepsSound(c: Config, op: Op)
    requires DisjointServers(c.groups) && Enabled(c, op)
    ensures Sound(Apply(c, op)) && |Apply(c, op).shards| == |c.shards|
  {
    var after := Apply(c, op);
    if after.groups.Keys != {} {
      RebalancedIsBalanced(c.shards, after.groups.Keys);
    }
    forall g, h | g in after.groups && h in after.groups && g != h
      ensures !ShareServer(after.groups[g], after.groups[h])
    {
      ShareIsSymmetric(after.groups[g], after.groups[h]);
    }
  }

  lemma {:induction false} RunIsSound(configs: seq<Config>, ops: seq<Op>)
    requires IsRun(configs, ops)
    ensures Sound(configs[|ops|]) && configs[|ops|].num == |ops| && |configs[|ops|].shards| == |configs[0].shards|
    decreases |ops|
  {
    if ops != [] {
      var n := |ops| - 1;
      assert IsRun(configs[..n + 1], ops[..n]) by {
        assert configs[..n + 1][0] == configs[0];
      }
      RunIsSound(configs[..n + 1], ops[..n]);
      assert configs[..n + 1][n] == configs[n] && ops[..n + 1][n] == ops[n];
      ApplyKeepsSound(configs[n], ops[n]);
    }
  }

  lemma {:induction false} DistinctListing(expected: seq<int>)
    requires forall i, j :: 0 <= i < j < |expected| ==> expected[i] != expected[j]
    ensures |set g | g in expected| == |expected|
  {
    if expected != [] {
      var n := |expected| - 1;
      DistinctListing(expected[..n]);
      assert (set g | g in expected) == (set g | g in expected[..n]) + {expected[n]};
    }
  }

  // Main result: after any run of successful joins and leaves, the checker accepts the current
  // groups in whatever order they are listed, server lists are disjoint, the configuration number is
  // the number of calls, and (with 1..N groups) a group owns a shard exactly when it is present.
  lemma EveryRunIsAccepted(configs: seq<Config>, ops: seq<Op>, expected: seq<int>)
    requires IsRun(configs, ops)
    requires forall g :: g in expected <==> g in configs[|ops|].groups
    requires forall i, j :: 0 <= i < j < |expected| ==> expected[i] != expected[j]
    ensures var c := configs[|ops|];
            && Accepted(c, expected)
            && DisjointServers(c.groups)
            && c.num == |ops|
            && (1 <= |c.groups| <= |c.shards| ==> forall g :: g in c.shards <==> g in c.groups)
  {
    var c := configs[|ops|];
    RunIsSound(configs, ops);
    DistinctListing(expected);
    var listed := set g | g in expected;
    assert listed == c.groups.Keys by {
      assert forall g :: g in listed ==> g in c.groups.Keys;
      assert forall g :: g in c.groups.Keys ==> g in expected;
    }
    if 1 <= |c.groups| <= |c.shards| {
      forall g ensures g in c.shards <==> g in c.groups {
        EveryGroupIsUsed(c.shards, c.groups.Keys, g);
      }
    }
  }

  // On the way, a join moves shards only to joining groups and a leave only those of leaving groups.
  lemma EveryStepIsLocal(configs: seq<Config>, ops: seq<Op>, i: nat, s: nat)
    requires IsRun(configs, ops) && i < |ops| && s < |configs[0].shards|
    ensures |configs[i].shards| == |configs[i + 1].shards| == |configs[0].shards|
    ensures configs[i].shards[s] == configs[i + 1].shards[s] ||
            match ops[i] {
              case JoinOp(servers) => configs[i + 1].shards[s] in servers
              case LeaveOp(gids) => configs[i].shards[s] in gids
            }
  {
    assert IsRun(configs[..i + 1], ops[..i]) by {
      assert configs[..i + 1][0] == configs[0];
    }
    RunIsSound(configs[..i + 1], ops[..i]);
    var c, op := configs[i], ops[i];
    ApplyKeepsSound(c, op);
    match op
    case JoinOp(servers) =>
      assert (c.groups + servers).Keys == c.groups.Keys + servers.Keys;
      JoinMovesOnlyToJoining(c.shards, c.groups.Keys, servers.Keys, s);
    case LeaveOp(gids) =>
      var leaving := set g | g in gids;
      assert (c.groups - leaving).Keys == c.groups.Keys - leaving;
      assert gids[0] in c.groups;
      LeaveMovesOnlyLeavers(c.shards, c.groups.Keys, leaving, s);
  }

  // How many of the ids, from the first on, a leave removes before it meets one that is not there.
  function LeaveCount(present: map<int, seq<string>>, gids: seq<int>): (m: nat)
    ensures m <= |gids|
  {
    if gids == [] || gids[0] !in present then 0
    else 1 + LeaveCount(present - {gids[0]}, gids[1..])
  }

  lemma {:induction false} LeavePrefixIsExact(present: map<int, seq<string>>, gids: seq<int>)
    ensures var removed := gids[..LeaveCount(present, gids)];
            && LeavePrefix(present, gids) == present - (set g | g in removed)
            && (removed == [] || Leavable(present, removed))
            && (LeaveCount(present, gids) == |gids| || gids[LeaveCount(present, gids)] !in LeavePrefix(present, gids))
  {
    if gids != [] && gids[0] in present {
      var rest := present - {gids[0]};
      var m := LeaveCount(rest, gids[1..]);
      LeavePrefixIsExact(rest, gids[1..]);
      var removed := gids[..m + 1];
      assert removed[0] == gids[0] && removed[1..] == gids[1..][..m];
      assert forall g :: g in removed <==> g == gids[0] || g in removed[1..];
      forall i | 0 <= i < |removed| ensures removed[i] in present {
        assert i > 0 ==> removed[i] == removed[1..][i - 1];
      }
      forall i, j | 0 <= i < j < |removed| ensures removed[i] != removed[j] {
        assert removed[j] == removed[1..][j - 1];
        assert i > 0 ==> removed[i] == removed[1..][i - 1];
      }
    }
  }

  // A refused leave has already removed the groups before the offending id and does not rebalance.  It
  // leaves every shard on a present group exactly when none of the removed groups owned one.
  lemma RefusedLeaveStrandsShards(c: Config, gids: seq<int>)
    requires Sound(c) && c.groups != map[] && !Leavable(c.groups, gids)
    ensures Placed(c.shards, LeavePrefix(c.groups, gids).Keys) <==>
            forall i :: 0 <= i < LeaveCount(c.groups, gids) ==> gids[i] !in c.shards
  {
    var removed := gids[..LeaveCount(c.groups, gids)];
    LeavePrefixIsExact(c.groups, gids);
    var present := LeavePrefix(c.groups, gids).Keys;
    if s :| 0 <= s < |c.shards| && c.shards[s] !in present {
      assert c.shards[s] in c.groups;
      assert c.shards[s] in removed;
      var i :| 0 <= i < |removed| && removed[i] == c.shards[s];
      assert gids[i] in c.shards;
    } else {
      forall i | 0 <= i < |removed| ensures gids[i] !in c.shards {
        assert removed[i] == gids[i];
      }
    }
  }

  // With no more groups than shards every group owns one, so the very first id decides.
  lemma RefusedLeaveStrandsUnlessFirst(c: Config, gids: seq<int>)
    requires Sound(c) && 1 <= |c.groups| <= |c.shards| && gids != [] && !Leavable(c.groups, gids)
    ensures Placed(c.shards, LeavePrefix(c.groups, gids).Keys) <==> gids[0] !in c.groups
  {
    RefusedLeaveStrandsShards(c, gids);
    if gids[0] in c.groups {
      EveryGroupIsUsed(c.shards, c.groups.Keys, gids[0]);
    }
  }

  const PAIR: map<int, seq<string>> := map[1 := ["a"], 2 := ["b"]]

  lemma PairJoins()
    ensures Joinable(map[], PAIR) && PAIR.Keys == {1, 2} && |PAIR| == 2
  {
    assert PAIR.Keys == {1, 2};
    assert !ShareServer(PAIR[1], PAIR[2]) && !ShareServer(PAIR[2], PAIR[1]);
  }

  lemma PairLeaves()
    ensures !Leavable(PAIR, [1, 3]) && LeavePrefix(PAIR, [1, 3]) == map[2 := ["b"]]
  {
    assert [1, 3][1] == 3 && 3 !in PAIR;
    assert PAIR - {1} == map[2 := ["b"]];
    assert LeavePrefix(map[2 := ["b"]], [3]) == map[2 := ["b"]];
    assert [1, 3][1..] == [3];
  }

  // Two groups join; a leave of 1 and an unknown 3 is refused and leaves the shards of 1 on no group.
  lemma StrandedRun(nShards: nat)
    requires nShards >= 2
    ensures var c := Apply(Initial(nShards), JoinOp(PAIR));
            && IsRun([Initial(nShards), c], [JoinOp(PAIR)])
            && !Enabled(c, LeaveOp([1, 3]))
            && !Placed(c.shards, LeavePrefix(c.groups, [1, 3]).Keys)
  {
    var first := Initial(nShards);
    var c := Apply(first, JoinOp(PAIR));
    PairJoins();
    assert first.groups + PAIR == PAIR;
    assert IsRun([first, c], [JoinOp(PAIR)]);
    RunIsSound([first, c], [JoinOp(PAIR)]);
    PairLeaves();
    RefusedLeaveStrandsUnlessFirst(c, [1, 3]);
  }
}
