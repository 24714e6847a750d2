/** Enemy clustering and target choice (`find_monster_clusters`, `select_best_target_area`,
    `select_target_monster`). Every monster seeds a candidate cluster of itself and every other
    monster within the cluster radius; candidates whose centres are close are merged keeping the
    one with more monsters; the survivors are ranked by density score. */
module Clusters {
  import opened Wrappers
  import opened Geometry
  import opened Detections
  import opened Sorting
  import opened Indexing

  /** Default `cluster_radius` of `find_monster_clusters`. */
  const ClusterRadius: int := 100

  /** Priority given to every cluster target by `select_target_monster`. */
  const ClusterTargetPriority: int := 10

  datatype Cluster = Cluster(center: Point, members: seq<Detection>, totalPriority: int, densityScore: int)

  function SumX(ms: seq<Detection>): int {
    if ms == [] then 0 else ms[0].pos.x + SumX(ms[1..])
  }

  function SumY(ms: seq<Detection>): int {
    if ms == [] then 0 else ms[0].pos.y + SumY(ms[1..])
  }

  function SumPriority(ms: seq<Detection>): int {
    if ms == [] then 0 else PriorityOf(ms[0]) + SumPriority(ms[1..])
  }

  /** Arithmetic mean of the members' positions. */
  function Centre(ms: seq<Detection>): Point
    requires ms != []
  {
    Point(SumX(ms) as real / |ms| as real, SumY(ms) as real / |ms| as real)
  }

  /** Monster `j` is a neighbour of the seed `ms[i]`. */
  predicate Neighbour(ms: seq<Detection>, i: nat, radius: int, j: nat)
    requires i < |ms| && j < |ms|
  {
    j != i && WithinDist(ms[i].pos, ms[j].pos, radius)
  }

  /** Which of the first `n` monsters are neighbours of the seed `ms[i]`. */
  function NeighbourFlags(ms: seq<Detection>, i: nat, radius: int, n: nat): (f: seq<bool>)
    requires i < |ms| && n <= |ms|
    ensures |f| == n && forall j :: 0 <= j < n ==> f[j] == Neighbour(ms, i, radius, j)
  {
    seq(n, j requires 0 <= j < n => Neighbour(ms, i, radius, j))
  }

  /** The monsters other than the seed `ms[i]`, among the first `n`, whose distance from the seed
      is at most `radius`, in list order. */
  function NearbyUpTo(ms: seq<Detection>, i: nat, radius: int, n: nat): (r: seq<Detection>)
    requires i < |ms| && n <= |ms|
    ensures |r| <= if i < n then n - 1 else n
    ensures forall d :: d in r <==>
      exists j :: 0 <= j < n && j != i && ms[j] == d && WithinDist(ms[i].pos, ms[j].pos, radius)
  {
    if n == 0 then []
    else
      NearbyUpTo(ms, i, radius, n - 1)
      + (if n - 1 != i && WithinDist(ms[i].pos, ms[n - 1].pos, radius) then [ms[n - 1]] else [])
  }

  lemma NeighbourFlagsSnoc(ms: seq<Detection>, i: nat, radius: int, n: nat)
    requires i < |ms| && 0 < n <= |ms|
    ensures NeighbourFlags(ms, i, radius, n)
            == NeighbourFlags(ms, i, radius, n - 1) + [Neighbour(ms, i, radius, n - 1)]
  {
  }

  lemma NearbyUpToSnoc(ms: seq<Detection>, i: nat, radius: int, n: nat)
    requires i < |ms| && 0 < n <= |ms|
    ensures NearbyUpTo(ms, i, radius, n)
            == NearbyUpTo(ms, i, radius, n - 1) + (if Neighbour(ms, i, radius, n - 1) then [ms[n - 1]] else [])
  {
  }

  /** The neighbours are the selection of the first `n` monsters by their neighbour flags. */
  lemma {:induction false} NearbyUpToSelects(ms: seq<Detection>, i: nat, radius: int, n: nat)
    requires i < |ms| && n <= |ms|
    ensures NearbyUpTo(ms, i, radius, n) == Select(ms[..n], NeighbourFlags(ms, i, radius, n))
  {
    if n > 0 {
      NearbyUpToSelects(ms, i, radius, n - 1);
      NeighbourFlagsSnoc(ms, i, radius, n);
      NearbyUpToSnoc(ms, i, radius, n);
      assert ms[..n] == ms[..n - 1] + [ms[n - 1]];
      SelectSnoc(ms[..n - 1], NeighbourFlags(ms, i, radius, n - 1), ms[n - 1], Neighbour(ms, i, radius, n - 1));
    }
  }

  /** The neighbours come in list order, one entry per neighbour position: entry `k` is the
      monster at the `k`-th position, in increasing order, among the first `n` whose monster is a
      neighbour, so a monster listed twice is a neighbour twice. */
  lemma NearbyUpToInOrder(ms: seq<Detection>, i: nat, radius: int, n: nat)
    requires i < |ms| && n <= |ms|
    ensures forall a, b :: 0 <= a < b < |Positions(NeighbourFlags(ms, i, radius, n))| ==>
      Positions(NeighbourFlags(ms, i, radius, n))[a] < Positions(NeighbourFlags(ms, i, radius, n))[b]
    ensures |NearbyUpTo(ms, i, radius, n)| == |Positions(NeighbourFlags(ms, i, radius, n))|
    ensures forall k :: 0 <= k < |NearbyUpTo(ms, i, radius, n)| ==>
      Positions(NeighbourFlags(ms, i, radius, n))[k] < |ms|
      && NearbyUpTo(ms, i, radius, n)[k] == ms[Positions(NeighbourFlags(ms, i, radius, n))[k]]
  {
    PositionsIncreasing(NeighbourFlags(ms, i, radius, n));
    NearbyUpToSelects(ms, i, radius, n);
    SelectAtPositions(ms[..n], NeighbourFlags(ms, i, radius, n));
  }

  /** The candidate cluster seeded by monster `i`: the seed first, then its neighbours. */
  function Candidate(ms: seq<Detection>, i: nat, radius: int): Cluster
    requires i < |ms|
  {
    var members := [ms[i]] + NearbyUpTo(ms, i, radius, |ms|);
    var total := SumPriority(members);
    Cluster(Centre(members), members, total, |members| * total)
  }

  function Candidates(ms: seq<Detection>, radius: int): (r: seq<Cluster>)
    ensures |r| == |ms|
    ensures forall i :: 0 <= i < |ms| ==> r[i] == Candidate(ms, i, radius)
  {
    seq(|ms|, i requires 0 <= i < |ms| => Candidate(ms, i, radius))
  }

  /** Two cluster centres closer than `radius / 2`. */
  predicate SameArea(a: Cluster, b: Cluster, radius: int) {
    radius > 0 && 4.0 * SqDistR(a.center, b.center) < (radius * radius) as real
  }

  /** Index of the first kept cluster in the same area as `c`, or `|unique|` if there is none. */
  function FirstSameArea(unique: seq<Cluster>, c: Cluster, radius: int): (j: nat)
    ensures j <= |unique|
    ensures j < |unique| ==> SameArea(c, unique[j], radius)
    ensures forall k :: 0 <= k < j ==> !SameArea(c, unique[k], radius)
  {
    if unique == [] then 0
    else if SameArea(c, unique[0], radius) then 0
    else 1 + FirstSameArea(unique[1..], c, radius)
  }

  /** One step of the merge: a cluster in a new area is appended; a cluster in the area of a kept
      one replaces it (removed, then appended at the end) only when it has more monsters. */
  function MergeOne(unique: seq<Cluster>, c: Cluster, radius: int): seq<Cluster> {
    var j := FirstSameArea(unique, c, radius);
    if j == |unique| then unique + [c]
    else if |c.members| > |unique[j].members| then unique[..j] + unique[j + 1..] + [c]
    else unique
  }

  function MergeAll(cs: seq<Cluster>, radius: int): seq<Cluster> {
    if cs == [] then [] else MergeOne(MergeAll(cs[..|cs| - 1], radius), cs[|cs| - 1], radius)
  }

  /** Sort key of the final ranking. */
  function Density(c: Cluster): real {
    c.densityScore as real
  }

  function FindMonsterClusters(ms: seq<Detection>, radius: int): seq<Cluster> {
    if ms == [] then [] else SortDesc(MergeAll(Candidates(ms, radius), radius), Density)
  }

  /** The area chosen by `select_best_target_area`. `cluster` is None on the fallback path that
      picks a single monster. */
  datatype Area = Area(position: Point, monsterCount: nat, cluster: Option<Cluster>)

  /** Index of the first monster of highest priority (`max(monsters, key=priority)`). */
  function FirstMaxPriority(ms: seq<Detection>): (k: nat)
    requires ms != []
    ensures k < |ms|
    ensures forall j :: 0 <= j < |ms| ==> PriorityOf(ms[j]) <= PriorityOf(ms[k])
    ensures forall j :: 0 <= j < k ==> PriorityOf(ms[j]) < PriorityOf(ms[k])
  {
    if |ms| == 1 then 0
    else
      var k := FirstMaxPriority(ms[..|ms| - 1]);
      assert forall j :: 0 <= j < |ms| - 1 ==> ms[..|ms| - 1][j] == ms[j];
      if PriorityOf(ms[|ms| - 1]) > PriorityOf(ms[k]) then |ms| - 1 else k
  }

  function SelectBestTargetArea(ms: seq<Detection>): Option<Area> {
    if ms == [] then None
    else
      var clusters := FindMonsterClusters(ms, ClusterRadius);
      if clusters != [] then
        Some(Area(clusters[0].center, |clusters[0].members|, Some(clusters[0])))
      else
        var best := ms[FirstMaxPriority(ms)];
        Some(Area(ToPoint(best.pos), 1, None))
  }

  /** The target handed to the decision loop: a synthetic monster at the chosen area. */
  datatype Target = Target(position: Point, priority: int, isCluster: bool, monsterCount: nat)

  function SelectTargetMonster(ms: seq<Detection>): Option<Target> {
    if ms == [] then None
    else match SelectBestTargetArea(ms)
      case Some(area) => Some(Target(area.position, ClusterTargetPriority, true, area.monsterCount))
      case None => None
  }

  // ---------------------------------------------------------------------------------------------
  // Candidates

  lemma {:induction false} SumPriorityDefault(ms: seq<Detection>)
    requires forall d :: d in ms ==> d.priority.None?
    ensures SumPriority(ms) == DefaultPriority * |ms|
  {
    if ms != [] {
      assert ms[0] in ms;
      SumPriorityDefault(ms[1..]);
    }
  }

  /** A candidate holds its seed first, only monsters within the radius of the seed besides it,
      every such monster, and at most all the monsters; its density score is its monster count
      times its total priority. */
  lemma CandidateShape(ms: seq<Detection>, i: nat, radius: int)
    requires i < |ms|
    ensures var c := Candidate(ms, i, radius);
      && c.members[0] == ms[i]
      && 1 <= |c.members| <= |ms|
      && (forall j :: 0 <= j < |ms| && j != i && WithinDist(ms[i].pos, ms[j].pos, radius) ==> ms[j] in c.members)
      && (forall d :: d in c.members[1..] ==> WithinDist(ms[i].pos, d.pos, radius))
      && c.totalPriority == SumPriority(c.members)
      && c.densityScore == |c.members| * c.totalPriority
      && c.center == Centre(c.members)
  {
    var c := Candidate(ms, i, radius);
    assert c.members[1..] == NearbyUpTo(ms, i, radius, |ms|);
  }

  /** Without priorities every monster counts 5, so `n` monsters total `5 * n` and score
      `5 * n * n`. */
  lemma CandidateDefaultDensity(ms: seq<Detection>, i: nat, radius: int)
    requires i < |ms|
    requires forall d :: d in ms ==> d.priority.None?
    ensures var c := Candidate(ms, i, radius);
      && c.totalPriority == DefaultPriority * |c.members|
      && c.densityScore == DefaultPriority * |c.members| * |c.members|
  {
    var c := Candidate(ms, i, radius);
    CandidateShape(ms, i, radius);
    forall d | d in c.members
      ensures d.priority.None?
    {
      if d != ms[i] {
        assert d in c.members[1..];
      }
    }
    SumPriorityDefault(c.members);
  }

  // ---------------------------------------------------------------------------------------------
  // Merge

  /** Some cluster of `r` has at least as many monsters as `v`. */
  ghost predicate Covered(v: Cluster, r: seq<Cluster>) {
    exists u :: u in r && |u.members| >= |v.members|
  }

  lemma CoveredByMember(v: Cluster, u: Cluster, r: seq<Cluster>)
    requires u in r && |u.members| >= |v.members|
    ensures Covered(v, r)
  {
  }

  lemma MergeOneElements(unique: seq<Cluster>, c: Cluster, radius: int)
    ensures |MergeOne(unique, c, radius)| <= |unique| + 1
    ensures MergeOne(unique, c, radius) != []
    ensures forall u :: u in MergeOne(unique, c, radius) ==> u in unique || u == c
  {
    var r := MergeOne(unique, c, radius);
    var j := FirstSameArea(unique, c, radius);
    if j < |unique| && |c.members| > |unique[j].members| {
      forall u | u in r
        ensures u in unique || u == c
      {
        var k :| 0 <= k < |r| && r[k] == u;
        if k < j {
          assert u == unique[k];
        } else if k < |r| - 1 {
          assert u == unique[k + 1];
        }
      }
    }
  }

  lemma MergeOneCovers(unique: seq<Cluster>, c: Cluster, radius: int)
    ensures Covered(c, MergeOne(unique, c, radius))
    ensures forall v :: Covered(v, unique) ==> Covered(v, MergeOne(unique, c, radius))
  {
    var r := MergeOne(unique, c, radius);
    var j := FirstSameArea(unique, c, radius);
    if j == |unique| {
      CoveredByMember(c, r[|r| - 1], r);
      forall v | Covered(v, unique)
        ensures Covered(v, r)
      {
        var w :| w in unique && |w.members| >= |v.members|;
        CoveredByMember(v, w, r);
      }
    } else if |c.members| > |unique[j].members| {
      CoveredByMember(c, r[|r| - 1], r);
      forall v | Covered(v, unique)
        ensures Covered(v, r)
      {
        var w :| w in unique && |w.members| >= |v.members|;
        var k :| 0 <= k < |unique| && unique[k] == w;
        if k < j {
          assert r[k] == w;
          CoveredByMember(v, w, r);
        } else if k > j {
          assert r[k - 1] == w;
          CoveredByMember(v, w, r);
        } else {
          CoveredByMember(v, r[|r| - 1], r);
        }
      }
    } else {
      CoveredByMember(c, unique[j], r);
    }
  }

  /** The merge keeps no more clusters than it was given, keeps at least one when given one, and
      keeps only given clusters. */
  lemma {:induction false} MergeAllElements(cs: seq<Cluster>, radius: int)
    ensures |MergeAll(cs, radius)| <= |cs|
    ensures cs != [] ==> MergeAll(cs, radius) != []
    ensures forall u :: u in MergeAll(cs, radius) ==> u in cs
  {
    if cs != [] {
      var front := cs[..|cs| - 1];
      var c := cs[|cs| - 1];
      var m := MergeAll(front, radius);
      MergeAllElements(front, radius);
      MergeOneElements(m, c, radius);
      forall u | u in MergeAll(cs, radius)
        ensures u in cs
      {
        if u != c {
          var k :| 0 <= k < |front| && front[k] == u;
          assert cs[k] == u;
        }
      }
    }
  }

  /** For every given cluster the merge keeps one with at least as many monsters. */
  lemma {:induction false} MergeAllCovers(cs: seq<Cluster>, radius: int)
    ensures forall i :: 0 <= i < |cs| ==> Covered(cs[i], MergeAll(cs, radius))
  {
    if cs != [] {
      var n := |cs| - 1;
      var front := cs[..n];
      var m := MergeAll(front, radius);
      var r := MergeAll(cs, radius);
      assert r == MergeOne(m, cs[n], radius);
      MergeAllCovers(front, radius);
      MergeOneCovers(m, cs[n], radius);
      forall i | 0 <= i < |cs|
        ensures Covered(cs[i], r)
      {
        if i < n {
          assert front[i] == cs[i];
          assert Covered(front[i], m);
        }
      }
    }
  }

  // ---------------------------------------------------------------------------------------------
  // Result of find_monster_clusters

  /** No monsters give no clusters; some monsters give at least one cluster and at most one per
      monster, ranked by non-increasing density score. */
  lemma FindMonsterClustersSize(ms: seq<Detection>, radius: int)
    ensures FindMonsterClusters(ms, radius) == [] <==> ms == []
    ensures |FindMonsterClusters(ms, radius)| <= |ms|
    ensures SortedDesc(FindMonsterClusters(ms, radius), Density)
  {
    if ms != [] {
      var merged := MergeAll(Candidates(ms, radius), radius);
      MergeAllElements(Candidates(ms, radius), radius);
      SortDescSorted(merged, Density);
    }
  }

  /** Every returned cluster is the candidate seeded by one of the monsters. */
  lemma FindMonsterClustersFromCandidates(ms: seq<Detection>, radius: int)
    ensures forall c :: c in FindMonsterClusters(ms, radius) ==> c in Candidates(ms, radius)
  {
    if ms != [] {
      var cands := Candidates(ms, radius);
      var merged := MergeAll(cands, radius);
      MergeAllElements(cands, radius);
      SortDescPermutation(merged, Density);
      forall c | c in FindMonsterClusters(ms, radius)
        ensures c in cands
      {
        assert c in multiset(merged);
        assert c in merged;
      }
    }
  }

  /** For every monster, some returned cluster has at least as many monsters as the candidate it
      seeds: merging never loses the most populous area. */
  lemma FindMonsterClustersCovers(ms: seq<Detection>, radius: int)
    ensures forall i :: 0 <= i < |ms| ==> Covered(Candidate(ms, i, radius), FindMonsterClusters(ms, radius))
  {
    if ms != [] {
      var cands := Candidates(ms, radius);
      var merged := MergeAll(cands, radius);
      var r := FindMonsterClusters(ms, radius);
      MergeAllCovers(cands, radius);
      SortDescPermutation(merged, Density);
      forall i | 0 <= i < |ms|
        ensures Covered(Candidate(ms, i, radius), r)
      {
        assert Covered(cands[i], merged);
        var u :| u in merged && |u.members| >= |cands[i].members|;
        assert u in multiset(r);
        CoveredByMember(cands[i], u, r);
      }
    }
  }

  /** Every returned cluster holds at least one monster, starting with the monster that seeded
      it, and its density score is its monster count times its total priority. */
  lemma FindMonsterClustersMembers(ms: seq<Detection>, radius: int)
    ensures forall c :: c in FindMonsterClusters(ms, radius) ==>
      && c.members != []
      && c.members[0] in ms
      && c.densityScore == |c.members| * SumPriority(c.members)
  {
    FindMonsterClustersFromCandidates(ms, radius);
    forall c | c in FindMonsterClusters(ms, radius)
      ensures c.members != [] && c.members[0] in ms && c.densityScore == |c.members| * SumPriority(c.members)
    {
      var cands := Candidates(ms, radius);
      var i :| 0 <= i < |cands| && cands[i] == c;
      CandidateShape(ms, i, radius);
    }
  }

  /** A single monster yields one cluster of one monster centred on it. */
  lemma SingleMonsterCluster(m: Detection, radius: int)
    ensures FindMonsterClusters([m], radius)
            == [Cluster(ToPoint(m.pos), [m], PriorityOf(m), PriorityOf(m))]
  {
    var ms := [m];
    assert NearbyUpTo(ms, 0, radius, 1) == [];
    var members := [m] + NearbyUpTo(ms, 0, radius, 1);
    assert members == [m];
    assert SumX(members) == m.pos.x;
    assert SumY(members) == m.pos.y;
    assert SumPriority(members) == PriorityOf(m);
    var c := Candidate(ms, 0, radius);
    assert c == Cluster(ToPoint(m.pos), [m], PriorityOf(m), PriorityOf(m));
    assert Candidates(ms, radius) == [c];
    assert MergeAll([c], radius) == [c];
  }

  // ---------------------------------------------------------------------------------------------
  // Target selection

  /** The fallback of `select_best_target_area` (pick the single highest-priority monster) is
      never taken: when there are monsters there are clusters. */
  lemma FallbackUnreachable(ms: seq<Detection>)
    requires ms != []
    ensures FindMonsterClusters(ms, ClusterRadius) != []
    ensures SelectBestTargetArea(ms).Some? && SelectBestTargetArea(ms).value.cluster.Some?
  {
    FindMonsterClustersSize(ms, ClusterRadius);
  }

  /** There is a target exactly when there are monsters. The target is the centre of the first
      ranked cluster, whose density score is the highest of all returned clusters; it has
      priority 10, is marked as a cluster, and counts between one and all of the monsters. */
  lemma SelectTargetMonsterSpec(ms: seq<Detection>)
    ensures SelectTargetMonster(ms).None? <==> ms == []
    ensures ms != [] ==>
      var cs := FindMonsterClusters(ms, ClusterRadius);
      var t := SelectTargetMonster(ms).value;
      && cs != []
      && t == Target(cs[0].center, ClusterTargetPriority, true, |cs[0].members|)
      && (forall c :: c in cs ==> cs[0].densityScore >= c.densityScore)
      && 1 <= t.monsterCount <= |ms|
  {
    if ms != [] {
      var cs := FindMonsterClusters(ms, ClusterRadius);
      FindMonsterClustersSize(ms, ClusterRadius);
      FindMonsterClustersFromCandidates(ms, ClusterRadius);
      assert cs[0] in cs;
      var cands := Candidates(ms, ClusterRadius);
      var i :| 0 <= i < |cands| && cands[i] == cs[0];
      CandidateShape(ms, i, ClusterRadius);
      forall c | c in cs
        ensures cs[0].densityScore >= c.densityScore
      {
        var k :| 0 <= k < |cs| && cs[k] == c;
        if k > 0 {
          assert Density(cs[0]) >= Density(cs[k]);
        }
      }
    }
  }
}
