// Consequences of rebalancing: exact loads, least movement, and which shards a join or a leave touches.
module ShardTheorems {
  import opened SetSums
  import opened ShardSpec

  ghost function Loads(shards: seq<int>): int -> int
  {
    g => Load(shards, g)
  }

  // ---- Every load is the floor or the ceiling of the average ----

  lemma {:induction false} LoadsAddUp(shards: seq<int>, groups: set<int>)
    ensures Sum(groups, Loads(shards)) <= |shards|
    ensures Placed(shards, groups) ==> Sum(groups, Loads(shards)) == |shards|
  {
    if shards == [] {
      SumConstant(groups, Loads(shards), 0);
    } else {
      var n := |shards| - 1;
      var rest, x := shards[..n], shards[n];
      assert shards == rest + [x];
      LoadsAddUp(rest, groups);
      if x in groups {
        SumUpdate(groups, Loads(rest), Loads(shards), x);
      } else {
        SumMonotone(groups, Loads(rest), Loads(shards));
        SumMonotone(groups, Loads(shards), Loads(rest));
      }
    }
  }

  // The floor of the average, or the ceiling where the average is not a whole number.
  lemma LoadIsFloorOrCeiling(shards: seq<int>, groups: set<int>, g: int)
    requires g in groups && Balanced(shards, groups)
    ensures var low := |shards| / |groups|;
            Load(shards, g) == low || (|shards| % |groups| != 0 && Load(shards, g) == low + 1)
  {
    LoadsAddUp(shards, groups);
    var n, total := |groups|, |shards|;
    var low := total / n;
    assert total == n * low + total % n;
    if Load(shards, g) < low {
      BoundedSum(groups, Loads(shards), low, g);
    } else if Load(shards, g) > low {
      var high := if total % n == 0 then low else low + 1;
      assert n * (low + 1) == n * low + n;
      if Load(shards, g) > high {
        BoundedSum(groups, Loads(shards), high, g);
      }
    }
  }

  // If one term is off a bound and no term lies more than one away from it, so is the sum.
  lemma BoundedSum(groups: set<int>, f: int -> int, c: int, x: int)
    requires x in groups
    requires forall g, h :: g in groups && h in groups ==> f(g) <= f(h) + 1
    ensures f(x) < c ==> Sum(groups, f) < |groups| * c
    ensures f(x) > c ==> Sum(groups, f) > |groups| * c
  {
    var k := (h: int) => c;
    SumConstant(groups, k, c);
    if f(x) < c {
      SumStrict(groups, f, k, x);
    }
    if f(x) > c {
      SumStrict(groups, k, f, x);
    }
  }

  // So rebalancing any configuration, however lopsided, ends with these loads.
  lemma RebalancedLoads(shards: seq<int>, groups: set<int>, g: int)
    requires g in groups
    ensures var after := Rebalanced(shards, groups);
            var low := |shards| / |groups|;
            && |after| == |shards| && Placed(after, groups)
            && (Load(after, g) == low || (|shards| % |groups| != 0 && Load(after, g) == low + 1))
  {
    RebalancedIsBalanced(shards, groups);
    LoadIsFloorOrCeiling(Rebalanced(shards, groups), groups, g);
  }

  // ---- Least movement ----

  // The number of shards taken away from groups that are present.
  ghost function Taken(before: seq<int>, after: seq<int>, groups: set<int>): nat
    requires |before| == |after|
  {
    if before == [] then 0
    else
      var n := |before| - 1;
      Taken(before[..n], after[..n], groups) +
      if before[n] in groups && after[n] != before[n] then 1 else 0
  }

  ghost function LostBy(before: seq<int>, after: seq<int>, g: int): nat
    requires |before| == |after|
  {
    if before == [] then 0
    else
      var n := |before| - 1;
      LostBy(before[..n], after[..n], g) + if before[n] == g && after[n] != g then 1 else 0
  }

  // Both directions of a loss, and of a gain, one shard at a time.
  lemma LostPrefix(before: seq<int>, after: seq<int>, g: int)
    requires |before| == |after| > 0
    ensures var n := |before| - 1;
            Lost(before, after, g) <==> Lost(before[..n], after[..n], g) || (before[n] == g && after[n] != g)
  {
  }

  lemma GainedIsLostBackwards(before: seq<int>, after: seq<int>, g: int)
    requires |before| == |after|
    ensures Gained(before, after, g) <==> Lost(after, before, g)
  {
  }

  lemma {:induction false} LostCounted(before: seq<int>, after: seq<int>, g: int)
    requires |before| == |after|
    ensures LostBy(before, after, g) > 0 <==> Lost(before, after, g)
  {
    if before != [] {
      var n := |before| - 1;
      LostCounted(before[..n], after[..n], g);
      LostPrefix(before, after, g);
    }
  }

  lemma {:induction false} LoadDifference(before: seq<int>, after: seq<int>, g: int)
    requires |before| == |after|
    ensures Load(after, g) == Load(before, g) - LostBy(before, after, g) + LostBy(after, before, g)
  {
    if before != [] {
      var n := |before| - 1;
      LoadDifference(before[..n], after[..n], g);
      assert before == before[..n] + [before[n]] && after == after[..n] + [after[n]];
    }
  }

  // How a group's load changes, told by its losses and gains.
  lemma LoadChange(before: seq<int>, after: seq<int>, g: int)
    requires |before| == |after|
    ensures LostBy(before, after, g) >= Load(before, g) - Load(after, g)
    ensures LostBy(before, after, g) > 0 <==> Lost(before, after, g)
    ensures !Lost(before, after, g) ==> Load(after, g) >= Load(before, g)
    ensures !Gained(before, after, g) ==> LostBy(before, after, g) == Load(before, g) - Load(after, g)
    ensures Gained(before, after, g) && !Lost(before, after, g) ==> Load(after, g) > Load(before, g)
  {
    LoadDifference(before, after, g);
    LostCounted(before, after, g);
    LostCounted(after, before, g);
    GainedIsLostBackwards(before, after, g);
  }

  ghost function Losses(before: seq<int>, after: seq<int>): int -> int
    requires |before| == |after|
  {
    g => LostBy(before, after, g)
  }

  lemma {:induction false} TakenIsTheSumOfLosses(before: seq<int>, after: seq<int>, groups: set<int>)
    requires |before| == |after|
    ensures Taken(before, after, groups) == Sum(groups, Losses(before, after))
  {
    if before == [] {
      SumConstant(groups, Losses(before, after), 0);
    } else {
      var n := |before| - 1;
      var b, a := before[..n], after[..n];
      TakenIsTheSumOfLosses(b, a, groups);
      if before[n] in groups && after[n] != before[n] {
        SumUpdate(groups, Losses(b, a), Losses(before, after), before[n]);
      } else {
        SumMonotone(groups, Losses(b, a), Losses(before, after));
        SumMonotone(groups, Losses(before, after), Losses(b, a));
      }
    }
  }

  function Excess(x: int, y: int): int
  {
    if x > y then x - y else 0
  }

  ghost function Excesses(before: seq<int>, after: seq<int>): int -> int
  {
    g => Excess(Load(before, g), Load(after, g))
  }

  // Any reassignment takes at least the load decrease of every group, and a frugal one exactly that.
  lemma TakenBounds(before: seq<int>, after: seq<int>, groups: set<int>)
    requires |before| == |after|
    ensures Taken(before, after, groups) >= Sum(groups, Excesses(before, after))
    ensures Frugal(before, after, groups) ==> Taken(before, after, groups) == Sum(groups, Excesses(before, after))
  {
    TakenIsTheSumOfLosses(before, after, groups);
    forall g ensures Excesses(before, after)(g) <= Losses(before, after)(g) {
      LoadChange(before, after, g);
    }
    SumMonotone(groups, Excesses(before, after), Losses(before, after));
    if Frugal(before, after, groups) {
      forall g | g in groups ensures Losses(before, after)(g) <= Excesses(before, after)(g) {
        LoadChange(before, after, g);
      }
      SumMonotone(groups, Losses(before, after), Excesses(before, after));
    }
  }

  // Case 1: every group that ends above the floor started above it.
  lemma LeastWhenHighKept(before: seq<int>, after: seq<int>, other: seq<int>, groups: set<int>, low: nat)
    requires Placed(after, groups) && Placed(other, groups) && |after| == |other|
    requires forall g :: g in groups ==> low <= Load(after, g) <= low + 1 && low <= Load(other, g) <= low + 1
    requires forall g :: g in groups && Load(after, g) == low + 1 ==> Load(before, g) >= low + 1
    ensures Sum(groups, Excesses(before, after)) <= Sum(groups, Excesses(before, other))
  {
    LoadsAddUp(after, groups);
    LoadsAddUp(other, groups);
    var l := (g: int) => Excesses(before, after)(g) + Loads(after)(g);
    var r := (g: int) => Excesses(before, other)(g) + Loads(other)(g);
    SumPlus(groups, l, Excesses(before, after), Loads(after));
    SumPlus(groups, r, Excesses(before, other), Loads(other));
    SumMonotone(groups, l, r);
  }

  // Main result: no balanced assignment to the same groups takes fewer shards from present groups
  // than rebalancing does.
  lemma RebalancedTakesLeast(before: seq<int>, other: seq<int>, groups: set<int>)
    requires groups != {} && |other| == |before| && Balanced(other, groups)
    ensures |Rebalanced(before, groups)| == |before|
    ensures Taken(before, Rebalanced(before, groups), groups) <= Taken(before, other, groups)
  {
    var after := Rebalanced(before, groups);
    RebalancedIsBalanced(before, groups);
    TakenBounds(before, after, groups);
    TakenBounds(before, other, groups);
    var low := |before| / |groups|;
    WithinOneOfFloor(after, groups);
    WithinOneOfFloor(other, groups);
    LoadChanges(before, after, groups);
    if exists g :: g in groups && Load(after, g) == low < Load(before, g) {
      LeastWhenHighKept(before, after, other, groups, low);
    } else {
      SumMonotone(groups, Excesses(before, after), Excesses(before, other));
    }
  }

  lemma WithinOneOfFloor(shards: seq<int>, groups: set<int>)
    requires groups != {} && Balanced(shards, groups)
    ensures var low := |shards| / |groups|;
            forall g :: g in groups ==> low <= Load(shards, g) <= low + 1
  {
    var low := |shards| / |groups|;
    forall g | g in groups ensures low <= Load(shards, g) <= low + 1 {
      LoadIsFloorOrCeiling(shards, groups, g);
    }
  }

  lemma LoadChanges(before: seq<int>, after: seq<int>, groups: set<int>)
    requires |before| == |after|
    ensures forall g :: g in groups && Load(after, g) < Load(before, g) ==> Lost(before, after, g)
    ensures forall g :: g in groups && Load(after, g) > Load(before, g) ==> Gained(before, after, g)
  {
    forall g | g in groups
      ensures Load(after, g) < Load(before, g) ==> Lost(before, after, g)
      ensures Load(after, g) > Load(before, g) ==> Gained(before, after, g)
    {
      LoadChange(before, after, g);
    }
  }

  // ---- What a join and a leave touch ----

  // In a frugal result, a group that lost a shard and a group that gained one cannot both have
  // started within one shard of each other.
  lemma NoTradeAmongEven(before: seq<int>, after: seq<int>, groups: set<int>, g: int, h: int)
    requires Frugal(before, after, groups) && g in groups && h in groups
    requires Load(before, g) <= Load(before, h) + 1
    ensures !(Lost(before, after, g) && Gained(before, after, h))
  {
    LoadChange(before, after, g);
    LoadChange(before, after, h);
  }

  // Total load is conserved when no shard starts on an absent group, so a gain needs a loss.
  lemma GainNeedsLoss(before: seq<int>, after: seq<int>, groups: set<int>, h: int)
    requires |before| == |after| && Placed(before, groups) && h in groups
    requires Load(after, h) > Load(before, h)
    ensures exists g :: g in groups && Load(after, g) < Load(before, g)
  {
    LoadsAddUp(before, groups);
    LoadsAddUp(after, groups);
    if forall g :: g in groups ==> Load(before, g) <= Load(after, g) {
      SumStrict(groups, Loads(before), Loads(after), h);
    }
  }

  lemma LossNeedsGain(before: seq<int>, after: seq<int>, groups: set<int>, g: int)
    requires |before| == |after| && Placed(after, groups) && g in groups
    requires Load(after, g) < Load(before, g)
    ensures exists h :: h in groups && Load(after, h) > Load(before, h)
  {
    LoadsAddUp(before, groups);
    LoadsAddUp(after, groups);
    if forall h :: h in groups ==> Load(after, h) <= Load(before, h) {
      SumStrict(groups, Loads(after), Loads(before), g);
    }
  }

  // When groups join a balanced configuration, a shard moves only to a joining group.
  lemma JoinMovesOnlyToJoining(before: seq<int>, groups: set<int>, joining: set<int>, s: nat)
    requires groups + joining != {} && s < |before|
    requires Balanced(before, groups) || groups == {}
    ensures var after := Rebalanced(before, groups + joining);
            |after| == |before| && (after[s] == before[s] || after[s] in joining)
  {
    var all := groups + joining;
    var after := Rebalanced(before, all);
    RebalancedIsBalanced(before, all);
    var h := after[s];
    if h != before[s] && h !in joining {
      assert Gained(before, after, h);
      LoadChange(before, after, h);
      GainNeedsLoss(before, after, all, h);
      var g :| g in all && Load(after, g) < Load(before, g);
      LoadChange(before, after, g);
      NoTradeAmongEven(before, after, all, g, h);
      assert false;
    }
  }

  // When groups leave a balanced configuration, only their own shards move.
  lemma LeaveMovesOnlyLeavers(before: seq<int>, groups: set<int>, leaving: set<int>, s: nat)
    requires Balanced(before, groups) && s < |before|
    ensures var after := Rebalanced(before, groups - leaving);
            |after| == |before| && (after[s] == before[s] || before[s] in leaving)
  {
    var rest := groups - leaving;
    var after := Rebalanced(before, rest);
    if rest == {} {
      assert before[s] in leaving by { assert before[s] in groups && before[s] !in rest; }
    } else {
      RebalancedIsBalanced(before, rest);
      var g := before[s];
      if g != after[s] && g !in leaving {
        assert Lost(before, after, g);
        LoadChange(before, after, g);
        LossNeedsGain(before, after, rest, g);
        var h :| h in rest && Load(after, h) > Load(before, h);
        LoadChange(before, after, h);
        NoTradeAmongEven(before, after, rest, g, h);
        assert false;
      }
    }
  }

  // With no more groups than shards, a balanced configuration uses every group.
  lemma EveryGroupIsUsed(shards: seq<int>, groups: set<int>, g: int)
    requires groups != {} && Balanced(shards, groups) && |groups| <= |shards|
    ensures g in shards <==> g in groups
  {
    if g in groups {
      LoadIsFloorOrCeiling(shards, groups, g);
      QuotientPositive(|shards|, |groups|);
    }
  }

  lemma QuotientPositive(total: nat, n: nat)
    requires 0 < n <= total
    ensures total / n >= 1
  {
  }
}
