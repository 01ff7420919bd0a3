// Runs in which some joins and leaves are refused: what survives a refusal, and what every successful
// call restores.
module ShardMixedRun {
  import opened SetSums
  import opened ShardSpec
  import opened ShardTheorems
  import opened ShardRun

  ghost predicate Call(c: Config, c': Config, op: Op)
  {
    (Enabled(c, op) && c' == Apply(c, op)) || RefusedCall(c, c', op)
  }

  // A run of calls of which any may be refused.
  ghost predicate IsMixedRun(configs: seq<Config>, ops: seq<Op>)
  {
    && |configs| == |ops| + 1
    && (exists nShards :: configs[0] == Initial(nShards))
    && forall i: nat :: i < |ops| ==> CallAt(configs, ops, i)
  }

  ghost predicate CallAt(configs: seq<Config>, ops: seq<Op>, i: nat)
    requires i < |ops| < |configs|
  {
    Call(configs[i], configs[i + 1], ops[i])
  }

  // The number of successful calls among the first n.
  ghost function Successes(configs: seq<Config>, ops: seq<Op>, n: nat): nat
    requires n <= |ops| < |configs|
  {
    if n == 0 then 0
    else Successes(configs, ops, n - 1) + if Enabled(configs[n - 1], ops[n - 1]) then 1 else 0
  }

  lemma RefusedIsNotEnabled(c: Config, c': Config, op: Op)
    requires RefusedCall(c, c', op)
    ensures !Enabled(c, op)
  {
  }

  // ---- What a refusal keeps ----

  lemma PartialJoinKeepsDisjoint(start: map<int, seq<string>>, servers: map<int, seq<string>>, rest: set<int>,
                                 now: map<int, seq<string>>)
    requires DisjointServers(start) && Joined(start, servers, rest, now)
    ensures DisjointServers(now)
  {
    forall g, h | g in now && h in now && g != h ensures !ShareServer(now[g], now[h]) {
      ShareIsSymmetric(now[g], now[h]);
    }
  }

  lemma RefusedKeepsDisjoint(c: Config, c': Config, op: Op)
    requires DisjointServers(c.groups) && RefusedCall(c, c', op)
    ensures DisjointServers(c'.groups)
  {
    match op
    case JoinOp(servers) =>
      var rest :| Joined(c.groups, servers, rest, c'.groups);
      PartialJoinKeepsDisjoint(c.groups, servers, rest, c'.groups);
    case LeaveOp(gids) =>
      LeavePrefixIsExact(c.groups, gids);
  }

  lemma CallKeeps(c: Config, c': Config, op: Op)
    requires DisjointServers(c.groups) && Call(c, c', op)
    ensures DisjointServers(c'.groups) && |c'.shards| == |c.shards|
    ensures if Enabled(c, op) then c' == Apply(c, op) && Sound(c') else c'.num == c.num
  {
    if RefusedCall(c, c', op) {
      RefusedIsNotEnabled(c, c', op);
      RefusedKeepsDisjoint(c, c', op);
    } else {
      ApplyKeepsSound(c, op);
    }
  }

  lemma {:induction false} MixedRunKeeps(configs: seq<Config>, ops: seq<Op>, i: nat)
    requires IsMixedRun(configs, ops) && i < |configs|
    ensures DisjointServers(configs[i].groups) && |configs[i].shards| == |configs[0].shards|
    ensures configs[i].num == Successes(configs, ops, i)
  {
    if i > 0 {
      MixedRunKeeps(configs, ops, i - 1);
      assert CallAt(configs, ops, i - 1);
      CallKeeps(configs[i - 1], configs[i], ops[i - 1]);
    }
  }

  lemma SoundIsAccepted(c: Config, expected: seq<int>)
    requires Sound(c)
    requires forall g :: g in expected <==> g in c.groups
    requires forall i, j :: 0 <= i < j < |expected| ==> expected[i] != expected[j]
    ensures Accepted(c, expected)
  {
    DistinctListing(expected);
    var listed := set g | g in expected;
    assert listed == c.groups.Keys;
  }

  // Main result: in any run, however many joins and leaves were refused before and in whatever state they
  // left the configuration, the next successful call restores everything the checker tests, and the
  // number counts the successful calls.
  lemma EverySuccessRestores(configs: seq<Config>, ops: seq<Op>, i: nat, expected: seq<int>)
    requires IsMixedRun(configs, ops) && i < |ops| && Enabled(configs[i], ops[i])
    requires forall g :: g in expected <==> g in configs[i + 1].groups
    requires forall a, b :: 0 <= a < b < |expected| ==> expected[a] != expected[b]
    ensures var c := configs[i + 1];
            && Accepted(c, expected) && DisjointServers(c.groups)
            && c.num == Successes(configs, ops, i + 1)
            && (1 <= |c.groups| <= |c.shards| ==> forall g :: g in c.shards <==> g in c.groups)
  {
    var c := configs[i + 1];
    MixedRunKeeps(configs, ops, i);
    MixedRunKeeps(configs, ops, i + 1);
    assert CallAt(configs, ops, i);
    CallKeeps(configs[i], c, ops[i]);
    SoundIsAccepted(c, expected);
    if 1 <= |c.groups| <= |c.shards| {
      forall g ensures g in c.shards <==> g in c.groups {
        EveryGroupIsUsed(c.shards, c.groups.Keys, g);
      }
    }
  }

  // ---- What a refused join does to the loads ----

  ghost predicate WithinOne(shards: seq<int>, groups: set<int>)
  {
    forall g, h :: g in groups && h in groups ==> Load(shards, g) <= Load(shards, h) + 1
  }

  // No group has two shards exactly when there are at least as many groups as shards.
  lemma LightLoads(shards: seq<int>, groups: set<int>)
    requires groups != {} && Balanced(shards, groups)
    ensures (forall g :: g in groups ==> Load(shards, g) <= 1) <==> |shards| <= |groups|
  {
    if |shards| <= |groups| {
      forall g | g in groups ensures Load(shards, g) <= 1 {
        LoadIsFloorOrCeiling(shards, groups, g);
      }
    }
    if forall g :: g in groups ==> Load(shards, g) <= 1 {
      LoadsAddUp(shards, groups);
      SumMonotone(groups, Loads(shards), _ => 1);
      SumConstant(groups, _ => 1, 1);
    }
  }

  lemma NewGroupsOwnNothing(shards: seq<int>, groups: set<int>, g: int)
    requires Placed(shards, groups) && g !in groups
    ensures Load(shards, g) == 0
  {
    assert g !in shards;
  }

  // The id can be added to the groups before a present one is met.
  ghost predicate Addable(present: map<int, seq<string>>, servers: map<int, seq<string>>, g: int)
  {
    g in servers && g !in present && forall h :: h in present ==> !ShareServer(present[h], servers[g])
  }

  // A refused join leaves every shard where a group is, and the loads within one exactly when it has added
  // nothing or there were at least as many groups as shards.
  lemma RefusedJoinLoads(c: Config, c': Config, servers: map<int, seq<string>>)
    requires Sound(c) && RefusedCall(c, c', JoinOp(servers))
    ensures Placed(c'.shards, c'.groups.Keys)
    ensures WithinOne(c'.shards, c'.groups.Keys) <==> c'.groups == c.groups || |c.shards| <= |c.groups|
  {
    var rest :| Joined(c.groups, servers, rest, c'.groups);
    LightLoads(c.shards, c.groups.Keys);
    forall g | g !in c.groups ensures Load(c.shards, g) == 0 {
      NewGroupsOwnNothing(c.shards, c.groups.Keys, g);
    }
    if c'.groups != c.groups {
      var g := SomethingAdded(c.groups, servers, rest, c'.groups);
    }
  }

  lemma NothingAdded(start: map<int, seq<string>>, servers: map<int, seq<string>>, rest: set<int>,
                     now: map<int, seq<string>>)
    requires Joined(start, servers, rest, now) && forall g :: g in now ==> g in start
    ensures now == start
  {
    forall g ensures g in now.Keys <==> g in start.Keys {
      assert g in now.Keys <==> g in now;
    }
    assert forall g :: g in now ==> now[g] == start[g];
  }

  lemma SomethingAdded(start: map<int, seq<string>>, servers: map<int, seq<string>>, rest: set<int>,
                       now: map<int, seq<string>>) returns (g: int)
    requires Joined(start, servers, rest, now) && now != start
    ensures g in now && Addable(start, servers, g)
  {
    if forall g :: g in now ==> g in start {
      NothingAdded(start, servers, rest, now);
    }
    g :| g in now && g !in start;
  }

  // So, whatever the order in which the map is traversed, a refused join leaves the loads within one
  // exactly when there are at least as many groups as shards or none of the ids can be added.
  lemma RefusedJoinKeepsLoadsExactly(c: Config, servers: map<int, seq<string>>)
    requires Sound(c) && exists g :: g in servers && g in c.groups
    ensures (forall c' :: RefusedCall(c, c', JoinOp(servers)) ==> WithinOne(c'.shards, c'.groups.Keys)) <==>
            (|c.shards| <= |c.groups| || forall g :: !Addable(c.groups, servers, g))
  {
    forall c' | RefusedCall(c, c', JoinOp(servers))
      ensures WithinOne(c'.shards, c'.groups.Keys) <==> c'.groups == c.groups || |c.shards| <= |c.groups|
      ensures c'.groups == c.groups || exists g :: Addable(c.groups, servers, g)
    {
      RefusedJoinLoads(c, c', servers);
      if c'.groups != c.groups {
        var rest :| Joined(c.groups, servers, rest, c'.groups);
        var g := SomethingAdded(c.groups, servers, rest, c'.groups);
      }
    }
    if g :| Addable(c.groups, servers, g) {
      var c' := c.(groups := c.groups[g := servers[g]]);
      assert Joined(c.groups, servers, servers.Keys - {g}, c'.groups);
      assert RefusedCall(c, c', JoinOp(servers));
      assert c'.groups != c.groups by { assert g in c'.groups; }
    }
  }

  // ---- A run with a refusal in it ----

  const LATE: map<int, seq<string>> := map[3 := ["c"]]

  lemma LateJoins()
    ensures Joinable(map[2 := ["b"]], LATE)
  {
    assert 3 in LATE && !ShareServer(["b"], ["c"]);
  }

  lemma PairIsIn(nShards: nat)
    requires nShards >= 2
    ensures var c := Apply(Initial(nShards), JoinOp(PAIR));
            && c.groups == PAIR && c.num == 1 && Enabled(Initial(nShards), JoinOp(PAIR))
            && RefusedCall(c, c.(groups := map[2 := ["b"]]), LeaveOp([1, 3]))
            && !Placed(c.shards, {2})
  {
    var c := Apply(Initial(nShards), JoinOp(PAIR));
    PairJoins();
    assert Initial(nShards).groups + PAIR == PAIR;
    PairLeaves();
    StrandedRun(nShards);
    assert (map[2 := ["b"]]).Keys == {2};
  }

  lemma LateIsIn(c: Config, c': Config)
    requires c.groups == map[2 := ["b"]] && c' == Apply(c, JoinOp(LATE))
    ensures Enabled(c, JoinOp(LATE)) && c'.groups == map[2 := ["b"], 3 := ["c"]]
  {
    LateJoins();
  }

  // Two groups join, a leave of 1 and an unknown 3 is refused and strands shards, and the next join, of 3,
  // puts everything right.
  lemma RestoredRun(nShards: nat) returns (configs: seq<Config>, ops: seq<Op>)
    requires nShards >= 2
    ensures ops == [JoinOp(PAIR), LeaveOp([1, 3]), JoinOp(LATE)] && IsMixedRun(configs, ops)
    ensures |configs| == 4 && configs[2].groups == map[2 := ["b"]] && !Placed(configs[2].shards, {2})
    ensures Accepted(configs[3], [2, 3]) && configs[3].num == 2
  {
    PairIsIn(nShards);
    configs, ops := RestoredFrom(Initial(nShards), Apply(Initial(nShards), JoinOp(PAIR)), nShards);
  }

  lemma RestoredFrom(first: Config, c: Config, nShards: nat) returns (configs: seq<Config>, ops: seq<Op>)
    requires first == Initial(nShards) && Enabled(first, JoinOp(PAIR)) && c == Apply(first, JoinOp(PAIR))
    requires c.num == 1 && RefusedCall(c, c.(groups := map[2 := ["b"]]), LeaveOp([1, 3])) && !Placed(c.shards, {2})
    ensures ops == [JoinOp(PAIR), LeaveOp([1, 3]), JoinOp(LATE)] && IsMixedRun(configs, ops)
    ensures |configs| == 4 && configs[2].groups == map[2 := ["b"]] && !Placed(configs[2].shards, {2})
    ensures Accepted(configs[3], [2, 3]) && configs[3].num == 2
  {
    var stranded := c.(groups := map[2 := ["b"]]);
    var restored := Apply(stranded, JoinOp(LATE));
    LateIsIn(stranded, restored);
    ops := [JoinOp(PAIR), LeaveOp([1, 3]), JoinOp(LATE)];
    configs := [first, c, stranded, restored];
    RestoredCalls(configs, ops);
    RestoredAccepted(configs, ops);
  }

  lemma RestoredAccepted(configs: seq<Config>, ops: seq<Op>)
    requires IsMixedRun(configs, ops) && |ops| == 3 && Enabled(configs[2], ops[2])
    requires configs[2].num == 1 && configs[3] == Apply(configs[2], ops[2])
    requires configs[3].groups == map[2 := ["b"], 3 := ["c"]]
    ensures Accepted(configs[3], [2, 3]) && configs[3].num == 2
  {
    EverySuccessRestores(configs, ops, 2, [2, 3]);
  }

  lemma RestoredCalls(configs: seq<Config>, ops: seq<Op>)
    requires |configs| == 4 && |ops| == 3 && exists nShards :: configs[0] == Initial(nShards)
    requires Enabled(configs[0], ops[0]) && configs[1] == Apply(configs[0], ops[0])
    requires RefusedCall(configs[1], configs[2], ops[1])
    requires Enabled(configs[2], ops[2]) && configs[3] == Apply(configs[2], ops[2])
    ensures IsMixedRun(configs, ops)
  {
    forall i: nat | i < |ops| ensures CallAt(configs, ops, i) {
      assert i == 0 || i == 1 || i == 2;
    }
  }
}
