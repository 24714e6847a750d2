/** Concrete situations worked through the model: the cluster choice between a pair and a
    lone enemy, the choice between a lone near enemy and a far group, and the descent from a
    rope. */
module Scenarios {
  import opened Wrappers
  import opened Geometry
  import opened Detections
  import opened Sorting
  import opened Keys
  import opened Clusters
  import opened ActionVerifier
  import opened Decisions
  import opened TrainingLoop

  /** An enemy of default priority detected at `(x, y)`. */
  function Enemy(x: int, y: int): Detection {
    Detection("monster.png", Pos(x, y), Box(x - 20, y - 20, 40, 40), 0.9, 10, Monsters, None)
  }

  /** The character at the centre of a 1920x1080 screen. */
  const Centre1080: Pos := Pos(960, 540)

  // ---------------------------------------------------------------------------------------------
  // Two enemies close together and a third far away

  const Pair: seq<Detection> := [Enemy(0, 0), Enemy(50, 0), Enemy(500, 0)]
  const PairCluster0: Cluster := Cluster(Point(25.0, 0.0), [Enemy(0, 0), Enemy(50, 0)], 10, 20)
  const PairCluster1: Cluster := Cluster(Point(25.0, 0.0), [Enemy(50, 0), Enemy(0, 0)], 10, 20)
  const PairCluster2: Cluster := Cluster(Point(500.0, 0.0), [Enemy(500, 0)], 5, 5)

  lemma PairCandidates()
    ensures Candidates(Pair, ClusterRadius) == [PairCluster0, PairCluster1, PairCluster2]
  {
    var ms := Pair;
    var a, b, c := ms[0], ms[1], ms[2];
    assert NearbyUpTo(ms, 0, ClusterRadius, 1) == [];
    assert NearbyUpTo(ms, 0, ClusterRadius, 2) == [b];
    assert NearbyUpTo(ms, 0, ClusterRadius, 3) == [b];
    assert NearbyUpTo(ms, 1, ClusterRadius, 1) == [a];
    assert NearbyUpTo(ms, 1, ClusterRadius, 2) == [a];
    assert NearbyUpTo(ms, 1, ClusterRadius, 3) == [a];
    assert NearbyUpTo(ms, 2, ClusterRadius, 1) == [];
    assert NearbyUpTo(ms, 2, ClusterRadius, 2) == [];
    assert NearbyUpTo(ms, 2, ClusterRadius, 3) == [];
    Sums2(a, b);
    Sums2(b, a);
    Sums1(c);
    assert [a] + [b] == [a, b] && [b] + [a] == [b, a] && [c] + [] == [c];
    assert Candidate(ms, 0, ClusterRadius) == PairCluster0;
    assert Candidate(ms, 1, ClusterRadius) == PairCluster1;
    assert Candidate(ms, 2, ClusterRadius) == PairCluster2;
  }

  lemma Sums1(a: Detection)
    ensures SumX([a]) == a.pos.x && SumY([a]) == a.pos.y && SumPriority([a]) == PriorityOf(a)
  {
    assert [a][1..] == [];
  }

  lemma Sums2(a: Detection, b: Detection)
    ensures SumX([a, b]) == a.pos.x + b.pos.x
    ensures SumY([a, b]) == a.pos.y + b.pos.y
    ensures SumPriority([a, b]) == PriorityOf(a) + PriorityOf(b)
  {
    assert [a, b][1..] == [b];
    Sums1(b);
  }

  lemma Sums3(a: Detection, b: Detection, c: Detection)
    ensures SumX([a, b, c]) == a.pos.x + b.pos.x + c.pos.x
    ensures SumY([a, b, c]) == a.pos.y + b.pos.y + c.pos.y
    ensures SumPriority([a, b, c]) == PriorityOf(a) + PriorityOf(b) + PriorityOf(c)
  {
    assert [a, b, c][1..] == [b, c];
    Sums2(b, c);
  }

  /** With equal priorities, the two enemies 50 pixels apart form the chosen cluster, centred
      between them, rather than the lone enemy. */
  lemma PairBeatsLoneEnemy()
    ensures var t := SelectTargetMonster([Enemy(0, 0), Enemy(50, 0), Enemy(500, 0)]);
      t.Some? && t.value.position == Point(25.0, 0.0) && t.value.monsterCount == 2
  {
    assert Pair == [Enemy(0, 0), Enemy(50, 0), Enemy(500, 0)];
    PairCandidates();
    var c0, c1, c2 := PairCluster0, PairCluster1, PairCluster2;
    var cs := [c0, c1, c2];
    assert cs[..1] == [c0] && cs[..2] == [c0, c1];
    assert MergeAll([c0], ClusterRadius) == [c0];
    assert MergeAll([c0, c1], ClusterRadius) == [c0];
    assert MergeAll(cs, ClusterRadius) == [c0, c2];
    assert SortDesc([c2], Density) == [c2];
    assert SortDesc([c0, c2], Density) == [c0, c2];
  }

  // ---------------------------------------------------------------------------------------------
  // A lone enemy in range against a group further away

  /** Enemy A 200 pixels to the right of the character; a group of three centred 300 pixels to
      its left. */
  const FarGroup: seq<Detection> := [Enemy(1160, 540), Enemy(660, 540), Enemy(640, 540), Enemy(680, 540)]

  const LoneCluster: Cluster := Cluster(Point(1160.0, 540.0), [Enemy(1160, 540)], 5, 5)
  const GroupCluster1: Cluster :=
    Cluster(Point(660.0, 540.0), [Enemy(660, 540), Enemy(640, 540), Enemy(680, 540)], 15, 45)
  const GroupCluster2: Cluster :=
    Cluster(Point(660.0, 540.0), [Enemy(640, 540), Enemy(660, 540), Enemy(680, 540)], 15, 45)
  const GroupCluster3: Cluster :=
    Cluster(Point(660.0, 540.0), [Enemy(680, 540), Enemy(660, 540), Enemy(640, 540)], 15, 45)

  lemma FarCandidate0()
    ensures Candidate(FarGroup, 0, ClusterRadius) == LoneCluster
  {
    var ms := FarGroup;
    assert NearbyUpTo(ms, 0, ClusterRadius, 1) == [];
    assert NearbyUpTo(ms, 0, ClusterRadius, 2) == [];
    assert NearbyUpTo(ms, 0, ClusterRadius, 3) == [];
    assert NearbyUpTo(ms, 0, ClusterRadius, 4) == [];
    Sums1(ms[0]);
    assert [ms[0]] + [] == [ms[0]];
  }

  lemma FarCandidate1()
    ensures Candidate(FarGroup, 1, ClusterRadius) == GroupCluster1
  {
    var ms := FarGroup;
    assert NearbyUpTo(ms, 1, ClusterRadius, 1) == [];
    assert NearbyUpTo(ms, 1, ClusterRadius, 2) == [];
    assert NearbyUpTo(ms, 1, ClusterRadius, 3) == [ms[2]];
    assert NearbyUpTo(ms, 1, ClusterRadius, 4) == [ms[2], ms[3]];
    Sums3(ms[1], ms[2], ms[3]);
    assert [ms[1]] + [ms[2], ms[3]] == [ms[1], ms[2], ms[3]];
  }

  lemma FarCandidate2()
    ensures Candidate(FarGroup, 2, ClusterRadius) == GroupCluster2
  {
    var ms := FarGroup;
    assert NearbyUpTo(ms, 2, ClusterRadius, 1) == [];
    assert NearbyUpTo(ms, 2, ClusterRadius, 2) == [ms[1]];
    assert NearbyUpTo(ms, 2, ClusterRadius, 3) == [ms[1]];
    assert NearbyUpTo(ms, 2, ClusterRadius, 4) == [ms[1], ms[3]];
    Sums3(ms[2], ms[1], ms[3]);
    assert [ms[2]] + [ms[1], ms[3]] == [ms[2], ms[1], ms[3]];
  }

  lemma FarCandidate3()
    ensures Candidate(FarGroup, 3, ClusterRadius) == GroupCluster3
  {
    var ms := FarGroup;
    assert NearbyUpTo(ms, 3, ClusterRadius, 1) == [];
    assert NearbyUpTo(ms, 3, ClusterRadius, 2) == [ms[1]];
    assert NearbyUpTo(ms, 3, ClusterRadius, 3) == [ms[1], ms[2]];
    assert NearbyUpTo(ms, 3, ClusterRadius, 4) == [ms[1], ms[2]];
    Sums3(ms[3], ms[1], ms[2]);
    assert [ms[3]] + [ms[1], ms[2]] == [ms[3], ms[1], ms[2]];
  }

  lemma FarGroupCandidates()
    ensures Candidates(FarGroup, ClusterRadius) == [LoneCluster, GroupCluster1, GroupCluster2, GroupCluster3]
  {
    var c := Candidates(FarGroup, ClusterRadius);
    FarCandidate0();
    FarCandidate1();
    FarCandidate2();
    FarCandidate3();
    FourElements(c, LoneCluster, GroupCluster1, GroupCluster2, GroupCluster3);
  }

  lemma FourElements<T>(s: seq<T>, a: T, b: T, c: T, d: T)
    requires |s| == 4 && s[0] == a && s[1] == b && s[2] == c && s[3] == d
    ensures s == [a, b, c, d]
  {
  }

  lemma FarGroupClusters()
    ensures FindMonsterClusters(FarGroup, ClusterRadius) == [GroupCluster1, LoneCluster]
  {
    FarGroupCandidates();
    var cs := [LoneCluster, GroupCluster1, GroupCluster2, GroupCluster3];
    assert cs[..1] == [LoneCluster];
    assert cs[..2] == [LoneCluster, GroupCluster1];
    assert cs[..3] == [LoneCluster, GroupCluster1, GroupCluster2];
    assert MergeAll([LoneCluster], ClusterRadius) == [LoneCluster];
    assert MergeAll(cs[..2], ClusterRadius) == [LoneCluster, GroupCluster1];
    assert FirstSameArea([LoneCluster, GroupCluster1], GroupCluster2, ClusterRadius) == 1;
    assert MergeOne([LoneCluster, GroupCluster1], GroupCluster2, ClusterRadius) == [LoneCluster, GroupCluster1];
    assert cs[..3][..2] == cs[..2] && cs[..3][2] == GroupCluster2;
    assert MergeAll(cs[..3], ClusterRadius) == [LoneCluster, GroupCluster1];
    assert FirstSameArea([LoneCluster, GroupCluster1], GroupCluster3, ClusterRadius) == 1;
    assert MergeAll(cs, ClusterRadius) == [LoneCluster, GroupCluster1];
    assert SortDesc([GroupCluster1], Density) == [GroupCluster1];
    assert [LoneCluster, GroupCluster1][1..] == [GroupCluster1];
    assert Density(GroupCluster1) == 45.0 && Density(LoneCluster) == 5.0;
    assert Insert(LoneCluster, [], Density) == [LoneCluster];
    assert [GroupCluster1][1..] == [];
    assert Insert(LoneCluster, [GroupCluster1], Density) == [GroupCluster1, LoneCluster];
    assert SortDesc([LoneCluster, GroupCluster1], Density) == [GroupCluster1, LoneCluster];
  }

  /** The group 300 pixels away wins over the lone enemy 200 pixels away; it is out of attack
      range, so the pass walks left towards the group's centre and away from the lone enemy. */
  lemma FarGroupIsApproached(w: World)
    ensures var s := Decide(Perception(false, FarGroup, [], [], Centre1080), DefaultConfig, w);
      && s.Approach?
      && s.target.position == Point(660.0, 540.0)
      && s.target.monsterCount == 3
      && StepKeys(s) == Hold(Left)
  {
    FarGroupClusters();
    var t := SelectTargetMonster(FarGroup).value;
    assert t == Target(Point(660.0, 540.0), ClusterTargetPriority, true, 3);
    assert SamePlatform(Centre1080, t.position);
    assert SqDistR(t.position, ToPoint(Centre1080)) == 90000.0;
    assert !InAttackRange(Centre1080, t.position, AttackRange);
  }

  // ---------------------------------------------------------------------------------------------
  // On a rope with an enemy below

  /** On a rope with an enemy 80 pixels below the character, the pass descends, starting with
      holding Down, and does not attack. */
  lemma EnemyBelowRopeDescends(cfg: Config, w: World)
    ensures var s := Decide(Perception(true, [Enemy(960, 620)], [], [], Centre1080), cfg, w);
      && s.Descend?
      && s.attempts.tried != [] && s.attempts.tried[0] == HoldDown
  {
    var p := Perception(true, [Enemy(960, 620)], [], [], Centre1080);
    OnRopeSpec(p, cfg, w);
    assert Enemy(960, 620) in p.monsters;
  }
}
