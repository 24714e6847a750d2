/** One pass of `auto_training_loop`: from what the pass perceives to the step it takes. Each
    pass is independent of the previous ones (the loop keeps no state besides the bot's fixed
    settings), so the loop is modelled as the decision of a single pass; repeating it is the
    repetition of independent decisions. */
module TrainingLoop {
  import opened Wrappers
  import opened Geometry
  import opened Detections
  import opened Keys
  import opened Clusters
  import opened ActionVerifier
  import opened Decisions

  /** `climb_down_strategy`. */
  datatype Strategy = Simple | Smart

  datatype Config = Config(attackRange: int, strategy: Strategy)

  /** The bot's settings at construction. */
  const DefaultConfig: Config := Config(AttackRange, Simple)

  /** What a pass perceives: whether the character is on a rope, the monsters, ropes and
      platforms found, and the assumed character position (the screen centre). */
  datatype Perception = Perception(
    onRope: bool,
    monsters: seq<Detection>,
    ropes: seq<Detection>,
    platforms: seq<Detection>,
    player: Pos)

  /** What the pass learns from the outside world while acting: the change percentage seen after
      each descent method, the monster snapshots polled while waiting for the platform to clear,
      and the random choice of exploration direction. */
  datatype World = World(observe: DescentMethod -> real, snapshots: seq<seq<Detection>>, exploreRight: bool)

  datatype Step =
    | Descend(attempts: Attempts)                 // on a rope with monsters below
    | ClimbOnward                                 // on a rope with nothing below: tap Up
    | ClimbToTarget(target: Target, keys: seq<KeyEvent>)
    | DropToTarget(target: Target, keys: seq<KeyEvent>)
    | Attack(target: Target, keys: seq<KeyEvent>, wait: Option<WaitOutcome>)
    | Approach(target: Target, keys: seq<KeyEvent>)
    | MountRope(keys: seq<KeyEvent>)              // no monsters, a rope within reach
    | Idle                                        // no monsters, every rope out of reach
    | Halted                                      // platform branch: its helper does not exist
    | Explore(direction: Key)                     // nothing detected: walk one way at random

  /** The keys a step injects. */
  function StepKeys(s: Step): seq<KeyEvent> {
    match s
    case Descend(a) => AttemptKeys(a.tried)
    case ClimbOnward => [Press(Up)]
    case ClimbToTarget(_, keys) => keys
    case DropToTarget(_, keys) => keys
    case Attack(_, keys, _) => keys
    case Approach(_, keys) => keys
    case MountRope(keys) => keys
    case Idle => []
    case Halted => []
    case Explore(d) => Hold(d)
  }

  function DescentOrder(s: Strategy): seq<DescentMethod> {
    match s
    case Simple => SimpleOrder
    case Smart => SmartOrder
  }

  predicate Above(player: Pos, target: Point) {
    target.y < (player.y - VerticalMargin) as real
  }

  predicate Below(player: Pos, target: Point) {
    target.y > (player.y + VerticalMargin) as real
  }

  /** The part of a pass on a rope. */
  function RopeStep(p: Perception, cfg: Config, w: World): Step {
    if MonstersBelow(p.monsters, p.player) != [] then Descend(TryInOrder(DescentOrder(cfg.strategy), w.observe))
    else ClimbOnward
  }

  /** The part of a pass with no monsters. */
  function IdleStep(p: Perception, w: World): Step {
    if p.ropes != [] then
      var r := HandleRope(p.ropes, p.player);
      if r.climbed then MountRope(r.keys) else Idle
    else if p.platforms != [] then Halted
    else Explore(if w.exploreRight then Right else Left)
  }

  /** Attack when in range (waiting for the platform to clear after a cluster attack), otherwise
      walk towards the target. */
  function AttackOrApproach(p: Perception, cfg: Config, w: World, t: Target): Step {
    var a := AttackTarget(p.player, t, cfg.attackRange);
    if a.attacked then Attack(t, a.keys, if t.isCluster then Some(WaitForPlatformClear(w.snapshots, p.player)) else None)
    else Approach(t, MoveToTarget(p.player, t.position))
  }

  /** The target branch as written: an off-platform target above the character with no rope
      mounted falls through to the range test and can be attacked. */
  function TargetStepAsWritten(p: Perception, cfg: Config, w: World, t: Target): Step {
    var rope := HandleRope(p.ropes, p.player);
    if !SamePlatform(p.player, t.position) && Above(p.player, t.position) && p.ropes != [] && rope.climbed then
      ClimbToTarget(t, rope.keys)
    else if !SamePlatform(p.player, t.position) && !(Above(p.player, t.position) && p.ropes != [])
            && Below(p.player, t.position) then
      DropToTarget(t, MoveToTarget(p.player, t.position))
    else AttackOrApproach(p, cfg, w, t)
  }

  /** The target branch as intended: only a target on the character's platform is attacked; an
      off-platform target is climbed to, dropped to, or walked and jumped towards. */
  function TargetStep(p: Perception, cfg: Config, w: World, t: Target): Step {
    var rope := HandleRope(p.ropes, p.player);
    if !SamePlatform(p.player, t.position) && Above(p.player, t.position) && p.ropes != [] && rope.climbed then
      ClimbToTarget(t, rope.keys)
    else if !SamePlatform(p.player, t.position) && Below(p.player, t.position) then
      DropToTarget(t, MoveToTarget(p.player, t.position))
    else if SamePlatform(p.player, t.position) then AttackOrApproach(p, cfg, w, t)
    else Approach(t, MoveToTarget(p.player, t.position))
  }

  /** One pass of the loop as written. */
  function DecideAsWritten(p: Perception, cfg: Config, w: World): Step {
    if p.onRope then RopeStep(p, cfg, w)
    else match SelectTargetMonster(p.monsters)
      case Some(t) => TargetStepAsWritten(p, cfg, w, t)
      case None => IdleStep(p, w)
  }

  /** One pass of the loop, attacking only targets on the character's platform. */
  function Decide(p: Perception, cfg: Config, w: World): Step {
    if p.onRope then RopeStep(p, cfg, w)
    else match SelectTargetMonster(p.monsters)
      case Some(t) => TargetStep(p, cfg, w, t)
      case None => IdleStep(p, w)
  }

  // ---------------------------------------------------------------------------------------------
  // Properties of a pass

  /** On a rope the pass descends exactly when some monster is more than 50 pixels below, trying
      the strategy's methods in order, and otherwise climbs on with one tap of Up; it never
      attacks from a rope. */
  lemma OnRopeSpec(p: Perception, cfg: Config, w: World)
    requires p.onRope
    ensures Decide(p, cfg, w).Descend? <==> exists m :: m in p.monsters && m.pos.y > p.player.y + VerticalMargin
    ensures Decide(p, cfg, w).Descend? ==> Decide(p, cfg, w).attempts == TryInOrder(DescentOrder(cfg.strategy), w.observe)
    ensures !Decide(p, cfg, w).Descend? ==> Decide(p, cfg, w) == ClimbOnward
  {
    var below := MonstersBelow(p.monsters, p.player);
    if below != [] {
      assert below[0] in below;
    }
  }

  /** Off the rope with monsters in view, every step pursues the target chosen by
      `select_target_monster`: the centre of the densest cluster. */
  lemma PursuesBestCluster(p: Perception, cfg: Config, w: World)
    requires !p.onRope && p.monsters != []
    ensures var s := Decide(p, cfg, w);
      && (s.ClimbToTarget? || s.DropToTarget? || s.Attack? || s.Approach?)
      && s.target == SelectTargetMonster(p.monsters).value
      && s.target.position == FindMonsterClusters(p.monsters, ClusterRadius)[0].center
  {
    SelectTargetMonsterSpec(p.monsters);
  }

  /** A pass attacks exactly when the character is off the rope, monsters are in view, and the
      chosen target is on the character's platform and within attack range; after an attack on
      a cluster the pass waits for the platform to clear. */
  lemma AttackSpec(p: Perception, cfg: Config, w: World)
    ensures Decide(p, cfg, w).Attack? <==>
      && !p.onRope
      && SelectTargetMonster(p.monsters).Some?
      && SamePlatform(p.player, SelectTargetMonster(p.monsters).value.position)
      && InAttackRange(p.player, SelectTargetMonster(p.monsters).value.position, cfg.attackRange)
    ensures Decide(p, cfg, w).Attack? ==>
      Decide(p, cfg, w).wait == Some(WaitForPlatformClear(w.snapshots, p.player))
  {
    if !p.onRope && SelectTargetMonster(p.monsters).Some? {
      var t := SelectTargetMonster(p.monsters).value;
      AttackTargetSpec(p.player, t, cfg.attackRange);
      SelectTargetMonsterSpec(p.monsters);
      if SamePlatform(p.player, t.position) {
        assert !Below(p.player, t.position) && !Above(p.player, t.position);
      }
    }
  }

  /** With no monsters but ropes in view, the pass mounts a rope exactly when one is closer than
      80 pixels, and otherwise does nothing. */
  lemma NoMonstersWithRopes(p: Perception, cfg: Config, w: World)
    requires !p.onRope && p.monsters == [] && p.ropes != []
    ensures Decide(p, cfg, w).MountRope? <==> exists r :: r in p.ropes && CloserThan(r.pos, p.player, RopeReach)
    ensures !Decide(p, cfg, w).MountRope? ==> Decide(p, cfg, w) == Idle
  {
    HandleRopeSpec(p.ropes, p.player);
  }

  /** With nothing detected at all the pass explores in the randomly chosen direction. */
  lemma NothingDetectedExplores(p: Perception, cfg: Config, w: World)
    requires !p.onRope && p.monsters == [] && p.ropes == [] && p.platforms == []
    ensures Decide(p, cfg, w) == Explore(if w.exploreRight then Right else Left)
    ensures Balanced(StepKeys(Decide(p, cfg, w)))
  {
    HoldBalanced(Right);
    HoldBalanced(Left);
  }

  lemma RopeStepBalanced(p: Perception, cfg: Config, w: World)
    ensures Balanced(StepKeys(RopeStep(p, cfg, w)))
  {
    TapBalanced(Up);
    AttemptKeysBalanced(TryInOrder(DescentOrder(cfg.strategy), w.observe).tried);
  }

  lemma IdleStepBalanced(p: Perception, w: World)
    ensures Balanced(StepKeys(IdleStep(p, w)))
  {
    HoldBalanced(Right);
    HoldBalanced(Left);
    RopeBalanced(p.ropes, p.player);
  }

  lemma MoveBalanced(player: Pos, target: Point)
    ensures Balanced(MoveToTarget(player, target))
  {
    MoveToTargetSpec(player, target);
  }

  lemma AttackBalanced(player: Pos, t: Target, attackRange: int)
    ensures Balanced(AttackTarget(player, t, attackRange).keys)
  {
    AttackTargetSpec(player, t, attackRange);
  }

  lemma RopeBalanced(ropes: seq<Detection>, player: Pos)
    ensures Balanced(HandleRope(ropes, player).keys)
  {
    HandleRopeSpec(ropes, player);
  }

  lemma TargetStepsBalanced(p: Perception, cfg: Config, w: World, t: Target)
    ensures Balanced(StepKeys(AttackOrApproach(p, cfg, w, t)))
    ensures Balanced(StepKeys(TargetStep(p, cfg, w, t)))
    ensures Balanced(StepKeys(TargetStepAsWritten(p, cfg, w, t)))
  {
    AttackBalanced(p.player, t, cfg.attackRange);
    MoveBalanced(p.player, t.position);
    RopeBalanced(p.ropes, p.player);
  }

  /** Every pass leaves no key held down. */
  lemma StepLeavesNoKeyHeld(p: Perception, cfg: Config, w: World)
    ensures Balanced(StepKeys(Decide(p, cfg, w)))
    ensures Balanced(StepKeys(DecideAsWritten(p, cfg, w)))
  {
    RopeStepBalanced(p, cfg, w);
    IdleStepBalanced(p, w);
    match SelectTargetMonster(p.monsters)
    case Some(t) => TargetStepsBalanced(p, cfg, w, t);
    case None =>
  }

  // ---------------------------------------------------------------------------------------------
  // The off-platform attack

  /** The written loop and the intended one differ exactly when the chosen target is off the
      character's platform, above it, within attack range, and no rope was mounted: then the
      written loop attacks, while the intended one walks and jumps towards the target. */
  lemma AsWrittenDiffersOnlyAbove(p: Perception, cfg: Config, w: World)
    ensures DecideAsWritten(p, cfg, w) != Decide(p, cfg, w) <==>
      && !p.onRope
      && SelectTargetMonster(p.monsters).Some?
      && var t := SelectTargetMonster(p.monsters).value;
         && !SamePlatform(p.player, t.position)
         && Above(p.player, t.position)
         && !(p.ropes != [] && HandleRope(p.ropes, p.player).climbed)
         && InAttackRange(p.player, t.position, cfg.attackRange)
    ensures DecideAsWritten(p, cfg, w) != Decide(p, cfg, w) ==>
      DecideAsWritten(p, cfg, w).Attack? && Decide(p, cfg, w).Approach?
  {
    if !p.onRope && SelectTargetMonster(p.monsters).Some? {
      var t := SelectTargetMonster(p.monsters).value;
      AttackTargetSpec(p.player, t, cfg.attackRange);
      if !SamePlatform(p.player, t.position) && !Below(p.player, t.position) {
        assert Above(p.player, t.position);
      }
    }
  }

  /** A monster 110 pixels above the character at the centre of a 1920x1080 screen, with no
      rope in view: the written loop attacks it although it is not on the character's
      platform. */
  lemma AsWrittenAttacksOffPlatform()
    ensures var m := Detection("monster.png", Pos(960, 430), Box(940, 410, 40, 40), 0.9, 10, Monsters, None);
      var p := Perception(false, [m], [], [], PlayerPosition(1920, 1080));
      var w := World(_ => 0.0, [], true);
      && !SamePlatform(p.player, ToPoint(m.pos))
      && DecideAsWritten(p, DefaultConfig, w).Attack?
      && DecideAsWritten(p, DefaultConfig, w).target.position == ToPoint(m.pos)
      && Decide(p, DefaultConfig, w).Approach?
  {
    var m := Detection("monster.png", Pos(960, 430), Box(940, 410, 40, 40), 0.9, 10, Monsters, None);
    SingleMonsterCluster(m, ClusterRadius);
    var t := SelectTargetMonster([m]).value;
    assert t.position == Point(960.0, 430.0);
    var player := PlayerPosition(1920, 1080);
    assert player == Pos(960, 540);
    assert SqDistR(t.position, ToPoint(player)) == 12100.0;
    assert InAttackRange(player, t.position, AttackRange);
  }

  /** The intended loop never attacks off the character's platform or out of range. */
  lemma AttackOnlyOnPlatformInRange(p: Perception, cfg: Config, w: World)
    requires Decide(p, cfg, w).Attack?
    ensures SamePlatform(p.player, Decide(p, cfg, w).target.position)
    ensures InAttackRange(p.player, Decide(p, cfg, w).target.position, cfg.attackRange)
  {
    AttackSpec(p, cfg, w);
  }
}
