// The rebalancing algorithm of a shard configuration, as a function of the shard array and the
// set of group ids, and the theorems about its result.
module ShardSpec {
  import opened SetSums

  // The number of shards that group g owns.
  function Load(shards: seq<int>, g: int): nat
  {
    multiset(shards)[g]
  }

  // The least loaded group; the smallest id wins a tie.
  ghost predicate IsLeast(shards: seq<int>, groups: set<int>, g: int)
  {
    && g in groups
    && forall h :: h in groups ==>
                     Load(shards, g) < Load(shards, h) || (Load(shards, g) == Load(shards, h) && g <= h)
  }

  // The most loaded group; the smallest id wins a tie.
  ghost predicate IsMost(shards: seq<int>, groups: set<int>, g: int)
  {
    && g in groups
    && forall h :: h in groups ==>
                     Load(shards, g) > Load(shards, h) || (Load(shards, g) == Load(shards, h) && g <= h)
  }

  lemma {:induction false} LeastExists(shards: seq<int>, groups: set<int>)
    requires groups != {}
    ensures exists g :: IsLeast(shards, groups, g)
  {
    var x := Pick(groups);
    if groups == {x} {
      assert IsLeast(shards, groups, x);
    } else {
      LeastExists(shards, groups - {x});
      var y :| IsLeast(shards, groups - {x}, y);
      assert IsLeast(shards, groups, x) || IsLeast(shards, groups, y);
    }
  }

  lemma {:induction false} MostExists(shards: seq<int>, groups: set<int>)
    requires groups != {}
    ensures exists g :: IsMost(shards, groups, g)
  {
    var x := Pick(groups);
    if groups == {x} {
      assert IsMost(shards, groups, x);
    } else {
      MostExists(shards, groups - {x});
      var y :| IsMost(shards, groups - {x}, y);
      assert IsMost(shards, groups, x) || IsMost(shards, groups, y);
    }
  }

  ghost function Least(shards: seq<int>, groups: set<int>): (g: int)
    requires groups != {}
    ensures IsLeast(shards, groups, g)
  {
    LeastExists(shards, groups);
    var g :| IsLeast(shards, groups, g); g
  }

  ghost function Most(shards: seq<int>, groups: set<int>): (g: int)
    requires groups != {}
    ensures IsMost(shards, groups, g)
  {
    MostExists(shards, groups);
    var g :| IsMost(shards, groups, g); g
  }

  // The first shard that g owns.
  function First(shards: seq<int>, g: int): (s: nat)
    requires g in shards
    ensures s < |shards| && shards[s] == g && g !in shards[..s]
  {
    if shards[0] == g then 0 else 1 + First(shards[1..], g)
  }

  ghost predicate Uneven(shards: seq<int>, groups: set<int>)
    requires groups != {}
  {
    Load(shards, Most(shards, groups)) >= Load(shards, Least(shards, groups)) + 2
  }

  // First phase: from shard s on, hand every shard of an absent group to the least loaded group.
  ghost function Fill(shards: seq<int>, groups: set<int>, s: nat): seq<int>
    requires groups != {} && s <= |shards|
    decreases |shards| - s
  {
    if s == |shards| then shards
    else if shards[s] in groups then Fill(shards, groups, s + 1)
    else Fill(shards[s := Least(shards, groups)], groups, s + 1)
  }

  // Second phase, one iteration: the most loaded group gives its first shard to the least loaded.
  ghost function MoveOne(shards: seq<int>, groups: set<int>): seq<int>
    requires groups != {} && Uneven(shards, groups)
  {
    shards[First(shards, Most(shards, groups)) := Least(shards, groups)]
  }

  ghost function Square(shards: seq<int>): int -> int
  {
    g => Load(shards, g) * Load(shards, g)
  }

  ghost function Energy(shards: seq<int>, groups: set<int>): int
  {
    Sum(groups, Square(shards))
  }

  lemma EnergyNonNegative(shards: seq<int>, groups: set<int>)
    ensures Energy(shards, groups) >= 0
  {
    var zero := (g: int) => 0;
    SumConstant(groups, zero, 0);
    forall g ensures 0 <= Square(shards)(g) {
      SquareNonNegative(Load(shards, g));
    }
    SumMonotone(groups, zero, Square(shards));
  }

  lemma SquareNonNegative(n: nat)
    ensures 0 <= n * n
  {
  }

  // Handing one shard from group a to group b.
  lemma MoveLoads(shards: seq<int>, s: nat, b: int)
    requires s < |shards| && shards[s] != b
    ensures forall g :: Load(shards[s := b], g) ==
                        Load(shards, g) + (if g == b then 1 else 0) - (if g == shards[s] then 1 else 0)
  {
  }

  // Every move lowers the sum of the squared loads.
  lemma MoveLowersEnergy(shards: seq<int>, groups: set<int>)
    requires groups != {} && Uneven(shards, groups)
    ensures 0 <= Energy(MoveOne(shards, groups), groups) < Energy(shards, groups)
  {
    var a, b := Most(shards, groups), Least(shards, groups);
    var after := MoveOne(shards, groups);
    var s := First(shards, a);
    MoveLoads(shards, s, b);
    var x, y: int := Load(shards, a), Load(shards, b);
    var x', y' := (x - 1) * (x - 1), (y + 1) * (y + 1);
    var f, h := Square(shards), Square(after);
    assert f(a) == x * x && f(b) == y * y && h(a) == x' && h(b) == y';
    var middle := (g: int) => if g == a then x' else f(g);
    SumUpdate(groups, f, middle, a);
    SumUpdate(groups, middle, h, b);
    SquaresFall(x, y);
    EnergyNonNegative(after, groups);
  }

  lemma SquaresFall(x: int, y: int)
    requires x >= y + 2
    ensures (x - 1) * (x - 1) + (y + 1) * (y + 1) < x * x + y * y
  {
  }

  // Second phase: move shards until no two loads differ by two or more.
  ghost function MoveAll(shards: seq<int>, groups: set<int>): seq<int>
    requires groups != {}
    decreases Energy(shards, groups)
  {
    if !Uneven(shards, groups) then shards
    else
      MoveLowersEnergy(shards, groups);
      MoveAll(MoveOne(shards, groups), groups)
  }

  ghost function Rebalanced(shards: seq<int>, groups: set<int>): seq<int>
  {
    if groups == {} then seq(|shards|, i => 0) else MoveAll(Fill(shards, groups, 0), groups)
  }

  // ---- What a run of the algorithm keeps ----

  ghost predicate Gained(before: seq<int>, after: seq<int>, g: int)
  {
    exists s :: 0 <= s < |before| && s < |after| && before[s] != g && after[s] == g
  }

  ghost predicate Lost(before: seq<int>, after: seq<int>, g: int)
  {
    exists s :: 0 <= s < |before| && s < |after| && before[s] == g && after[s] != g
  }

  // Group a is loaded at most one shard more than every group.
  ghost predicate NearLeast(shards: seq<int>, groups: set<int>, a: int)
  {
    forall x :: x in groups ==> Load(shards, a) <= Load(shards, x) + 1
  }

  ghost predicate NearMost(shards: seq<int>, groups: set<int>, a: int)
  {
    forall x :: x in groups ==> Load(shards, x) <= Load(shards, a) + 1
  }

  // Receivers stay within one of the minimum and givers within one of the maximum, no group is
  // both, and no giver ends up below a receiver.
  ghost predicate Frugal(before: seq<int>, after: seq<int>, groups: set<int>)
  {
    && |after| == |before|
    && (forall g :: g in groups && Gained(before, after, g) ==> NearLeast(after, groups, g))
    && (forall g :: g in groups && Lost(before, after, g) ==> NearMost(after, groups, g))
    && (forall g :: g in groups ==> !(Lost(before, after, g) && Gained(before, after, g)))
    && (forall g, h :: g in groups && h in groups && Lost(before, after, g) && Gained(before, after, h) ==>
          Load(after, h) <= Load(after, g))
  }

  ghost predicate Placed(shards: seq<int>, groups: set<int>)
  {
    forall s :: 0 <= s < |shards| ==> shards[s] in groups
  }

  ghost predicate Balanced(shards: seq<int>, groups: set<int>)
  {
    && Placed(shards, groups)
    && forall g, h :: g in groups && h in groups ==> Load(shards, g) <= Load(shards, h) + 1
  }

  // Gains and losses after one more write.
  lemma WriteEffect(before: seq<int>, mid: seq<int>, s: nat, b: int)
    requires |before| == |mid| && s < |mid| && mid[s] == before[s] != b
    ensures forall g :: Gained(before, mid[s := b], g) ==> g == b || Gained(before, mid, g)
    ensures forall g :: Lost(before, mid[s := b], g) ==> g == mid[s] || Lost(before, mid, g)
  {
  }

  // The state of the first phase at shard s: the shards from s on are untouched and no present
  // group has given anything up.
  ghost predicate Filling(before: seq<int>, mid: seq<int>, groups: set<int>, s: nat)
  {
    && Frugal(before, mid, groups)
    && s <= |mid|
    && (forall i :: 0 <= i < s ==> mid[i] in groups)
    && (forall i :: s <= i < |mid| ==> mid[i] == before[i])
    && (forall i :: 0 <= i < s && before[i] in groups ==> mid[i] == before[i])
  }

  lemma FillStep(before: seq<int>, mid: seq<int>, groups: set<int>, s: nat)
    requires groups != {} && Filling(before, mid, groups, s) && s < |mid|
    ensures mid[s] in groups ==> Filling(before, mid, groups, s + 1)
    ensures mid[s] !in groups ==> Filling(before, mid[s := Least(mid, groups)], groups, s + 1)
  {
    if mid[s] !in groups {
      var b := Least(mid, groups);
      var after := mid[s := b];
      MoveLoads(mid, s, b);
      WriteEffect(before, mid, s, b);
      assert forall g :: g in groups ==> !Lost(before, after, g);
    }
  }

  lemma {:induction false} FillKeeps(before: seq<int>, mid: seq<int>, groups: set<int>, s: nat)
    requires groups != {} && Filling(before, mid, groups, s)
    ensures Filling(before, Fill(mid, groups, s), groups, |before|)
    decreases |mid| - s
  {
    if s < |mid| {
      FillStep(before, mid, groups, s);
      FillKeeps(before, if mid[s] in groups then mid else mid[s := Least(mid, groups)], groups, s + 1);
    }
  }

  // A move takes a shard that still has its original owner: the giver has received nothing.
  lemma MoveTakesUntouched(before: seq<int>, mid: seq<int>, groups: set<int>)
    requires groups != {} && Frugal(before, mid, groups) && Uneven(mid, groups)
    ensures var s := First(mid, Most(mid, groups)); mid[s] == before[s] != Least(mid, groups)
  {
  }

  // A move neither lowers the minimum nor raises the maximum, and both ends of it stay between them.
  lemma MoveStaysWithin(mid: seq<int>, groups: set<int>)
    requires groups != {} && Uneven(mid, groups)
    ensures var a, b, after := Most(mid, groups), Least(mid, groups), MoveOne(mid, groups);
            && NearLeast(after, groups, b) && NearMost(after, groups, a) && Load(after, b) <= Load(after, a)
            && !NearLeast(mid, groups, a) && !NearMost(mid, groups, b)
            && (forall g :: g in groups && NearLeast(mid, groups, g) ==>
                  NearLeast(after, groups, g) && Load(after, g) <= Load(after, a))
            && (forall g :: g in groups && NearMost(mid, groups, g) ==>
                  NearMost(after, groups, g) && Load(after, b) <= Load(after, g))
  {
    var a, b := Most(mid, groups), Least(mid, groups);
    MoveLoads(mid, First(mid, a), b);
    assert Load(mid, a) > Load(mid, b) + 1;
  }

  lemma MoveKeepsFrugal(before: seq<int>, mid: seq<int>, groups: set<int>)
    requires groups != {} && Frugal(before, mid, groups) && Uneven(mid, groups)
    ensures Frugal(before, MoveOne(mid, groups), groups)
  {
    var a, b := Most(mid, groups), Least(mid, groups);
    var s := First(mid, a);
    MoveTakesUntouched(before, mid, groups);
    MoveStaysWithin(mid, groups);
    WriteEffect(before, mid, s, b);
    var after := MoveOne(mid, groups);
    forall g | g in groups && Gained(before, after, g)
      ensures NearLeast(after, groups, g) && !Lost(before, after, g)
    {
      assert g == b || Gained(before, mid, g);
    }
    forall g | g in groups && Lost(before, after, g) ensures NearMost(after, groups, g) {
      assert g == a || Lost(before, mid, g);
    }
    forall g, h | g in groups && h in groups && Lost(before, after, g) && Gained(before, after, h)
      ensures Load(after, h) <= Load(after, g)
    {
      MoveLoads(mid, s, b);
    }
  }

  lemma MoveKeepsPlaced(mid: seq<int>, groups: set<int>)
    requires groups != {} && Placed(mid, groups) && Uneven(mid, groups)
    ensures Placed(MoveOne(mid, groups), groups)
  {
  }

  lemma {:induction false} MoveAllKeeps(before: seq<int>, mid: seq<int>, groups: set<int>)
    requires groups != {} && Frugal(before, mid, groups) && Placed(mid, groups)
    ensures Frugal(before, MoveAll(mid, groups), groups)
    ensures Balanced(MoveAll(mid, groups), groups)
    decreases Energy(mid, groups)
  {
    if Uneven(mid, groups) {
      MoveLowersEnergy(mid, groups);
      MoveKeepsFrugal(before, mid, groups);
      MoveKeepsPlaced(mid, groups);
      MoveAllKeeps(before, MoveOne(mid, groups), groups);
    }
  }

  // Main result: the rebalanced configuration places every shard on a present group, its loads
  // differ by at most one, and no group both gives and receives.
  lemma RebalancedIsBalanced(shards: seq<int>, groups: set<int>)
    requires groups != {}
    ensures Balanced(Rebalanced(shards, groups), groups)
    ensures Frugal(shards, Rebalanced(shards, groups), groups)
  {
    FillKeeps(shards, shards, groups, 0);
    MoveAllKeeps(shards, Fill(shards, groups, 0), groups);
  }

  // Rebalancing an already balanced configuration changes nothing.
  lemma BalancedIsFixed(shards: seq<int>, groups: set<int>)
    requires groups != {} && Balanced(shards, groups)
    ensures Rebalanced(shards, groups) == shards
  {
    FillNothing(shards, groups, 0);
  }

  lemma {:induction false} FillNothing(shards: seq<int>, groups: set<int>, s: nat)
    requires groups != {} && Placed(shards, groups) && s <= |shards|
    ensures Fill(shards, groups, s) == shards
    decreases |shards| - s
  {
    if s < |shards| {
      FillNothing(shards, groups, s + 1);
    }
  }
}
