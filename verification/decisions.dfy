/** The per-cycle actions of the bot: where the character is assumed to be, the platform test,
    rope mounting, movement towards a target, attacking, and waiting for a platform to clear.
    Every action is modelled as the script of key events it injects. */
module Decisions {
  import opened Geometry
  import opened Detections
  import opened Keys
  import opened Clusters

  /** Vertical tolerance of `check_same_platform`. */
  const PlatformTolerance: real := 50.0
  /** How far below (or above) the character a monster or target must be to count as below
      (above) in the main loop. */
  const VerticalMargin: int := 50
  /** `attack_range` of the bot. */
  const AttackRange: int := 150
  /** A rope closer than this is mounted by `handle_rope`. */
  const RopeReach: int := 80
  /** Horizontal offset beyond which `handle_rope` first walks towards the rope. */
  const RopeAlignment: int := 15
  /** Thresholds of `move_to_target`. */
  const MoveThreshold: real := 30.0
  const JumpThreshold: real := 50.0
  const DropThreshold: real := 100.0

  /** `get_player_position`: the character is assumed to stand at the centre of the screen. */
  function PlayerPosition(screenWidth: nat, screenHeight: nat): (p: Pos)
    ensures 0 <= 2 * p.x <= screenWidth < 2 * p.x + 2
    ensures 0 <= 2 * p.y <= screenHeight < 2 * p.y + 2
  {
    Pos(screenWidth / 2, screenHeight / 2)
  }

  /** `check_same_platform`: the vertical distance is at most 50 pixels. */
  predicate SamePlatform(player: Pos, target: Point) {
    AbsR(player.y as real - target.y) <= PlatformTolerance
  }

  /** The monsters more than 50 pixels below the character, in detection order. */
  function MonstersBelow(ms: seq<Detection>, player: Pos): (r: seq<Detection>)
    ensures |r| <= |ms|
    ensures forall d :: d in r <==> d in ms && d.pos.y > player.y + VerticalMargin
  {
    if ms == [] then []
    else (if ms[0].pos.y > player.y + VerticalMargin then [ms[0]] else []) + MonstersBelow(ms[1..], player)
  }

  // ---------------------------------------------------------------------------------------------
  // Ropes

  /** Index of the nearest rope (`min` with the distance as key returns the first minimum). */
  function NearestRope(ropes: seq<Detection>, player: Pos): (k: nat)
    requires ropes != []
    ensures k < |ropes|
    ensures forall j :: 0 <= j < |ropes| ==> SqDist(ropes[k].pos, player) <= SqDist(ropes[j].pos, player)
    ensures forall j :: 0 <= j < k ==> SqDist(ropes[k].pos, player) < SqDist(ropes[j].pos, player)
  {
    if |ropes| == 1 then 0
    else
      var k := NearestRope(ropes[..|ropes| - 1], player);
      assert forall j :: 0 <= j < |ropes| - 1 ==> ropes[..|ropes| - 1][j] == ropes[j];
      if SqDist(ropes[|ropes| - 1].pos, player) < SqDist(ropes[k].pos, player) then |ropes| - 1 else k
  }

  datatype RopeMove = RopeMove(climbed: bool, keys: seq<KeyEvent>)

  /** Walk towards the rope when it is more than 15 pixels to the side. */
  function AlignKeys(rope: Pos, player: Pos): seq<KeyEvent> {
    if Abs(rope.x - player.x) > RopeAlignment then
      (if rope.x > player.x then Hold(Right) else Hold(Left))
    else []
  }

  /** `handle_rope`: mount the nearest rope when it is closer than 80 pixels. */
  function HandleRope(ropes: seq<Detection>, player: Pos): RopeMove {
    if ropes == [] then RopeMove(false, [])
    else
      var rope := ropes[NearestRope(ropes, player)];
      if CloserThan(rope.pos, player, RopeReach) then RopeMove(true, AlignKeys(rope.pos, player) + Hold(Up))
      else RopeMove(false, [])
  }

  /** A rope is mounted exactly when some rope is closer than 80 pixels; otherwise no key is
      touched. When mounting, the character first walks towards the nearest rope if it is more
      than 15 pixels to the side, then holds Up; no key stays held afterwards. */
  lemma HandleRopeSpec(ropes: seq<Detection>, player: Pos)
    ensures var r := HandleRope(ropes, player);
      && (r.climbed <==> exists rope :: rope in ropes && CloserThan(rope.pos, player, RopeReach))
      && (!r.climbed ==> r.keys == [])
      && Balanced(r.keys)
    ensures HandleRope(ropes, player).climbed ==>
      var rope := ropes[NearestRope(ropes, player)];
      var held := HeldKeys(HandleRope(ropes, player).keys);
      && held != [] && held[|held| - 1] == Up
      && (Right in held <==> rope.pos.x - player.x > RopeAlignment)
      && (Left in held <==> player.x - rope.pos.x > RopeAlignment)
  {
    var r := HandleRope(ropes, player);
    if exists rope :: rope in ropes && CloserThan(rope.pos, player, RopeReach) {
      var rope :| rope in ropes && CloserThan(rope.pos, player, RopeReach);
      var j :| 0 <= j < |ropes| && ropes[j] == rope;
      assert SqDist(ropes[NearestRope(ropes, player)].pos, player) <= SqDist(ropes[j].pos, player);
    }
    if r.climbed {
      var rope := ropes[NearestRope(ropes, player)];
      var a := AlignKeys(rope.pos, player);
      HeldKeysConcat(a, Hold(Up));
      HoldBalanced(Up);
      if Abs(rope.pos.x - player.x) > RopeAlignment {
        HoldBalanced(if rope.pos.x > player.x then Right else Left);
      }
      BalancedConcat(a, Hold(Up));
    } else {
      assert r.keys == [];
    }
  }

  // ---------------------------------------------------------------------------------------------
  // Movement

  function HorizontalKeys(dx: real): seq<KeyEvent> {
    if AbsR(dx) > MoveThreshold then (if dx > 0.0 then Hold(Right) else Hold(Left)) else []
  }

  function VerticalKeys(dy: real): seq<KeyEvent> {
    if dy < -JumpThreshold then [Press(Space)]
    else if dy > DropThreshold then HoldWhileTapping(Down, Space)
    else []
  }

  /** `move_to_target`: walk towards the target when it is more than 30 pixels to the side, then
      jump when it is more than 50 pixels above or drop through the floor (Down held while
      jumping) when it is more than 100 pixels below. */
  function MoveToTarget(player: Pos, target: Point): seq<KeyEvent> {
    HorizontalKeys(target.x - player.x as real) + VerticalKeys(target.y - player.y as real)
  }

  /** The movement heads towards the target: Right is held exactly when the target is more than
      30 pixels to the right, Left exactly when it is more than 30 pixels to the left; Space is
      tapped once exactly when the target is more than 50 pixels above or more than 100 below,
      with Down held exactly in the second case; no key stays held. */
  lemma MoveToTargetSpec(player: Pos, target: Point)
    ensures var keys := MoveToTarget(player, target);
      var dx := target.x - player.x as real;
      var dy := target.y - player.y as real;
      && (Right in HeldKeys(keys) <==> dx > MoveThreshold)
      && (Left in HeldKeys(keys) <==> dx < -MoveThreshold)
      && (Down in HeldKeys(keys) <==> dy > DropThreshold)
      && (CountPress(keys, Space) == 1 <==> dy < -JumpThreshold || dy > DropThreshold)
      && (CountPress(keys, Space) == 0 <==> -JumpThreshold <= dy <= DropThreshold)
      && Balanced(keys)
  {
    var h := HorizontalKeys(target.x - player.x as real);
    var v := VerticalKeys(target.y - player.y as real);
    HeldKeysConcat(h, v);
    CountPressConcat(h, v, Space);
    HoldBalanced(Right);
    HoldBalanced(Left);
    TapBalanced(Space);
    HoldWhileTappingBalanced(Down, Space);
    BalancedConcat(h, v);
  }

  // ---------------------------------------------------------------------------------------------
  // Attacking

  /** Number of attack rounds: a cluster of more than two monsters gets one round per monster,
      at most five; anything else gets a single attack. */
  function AttackCycles(t: Target): nat {
    if t.isCluster && t.monsterCount > 2 then (if t.monsterCount < 5 then t.monsterCount else 5) else 1
  }

  /** The side-step after round `cycle`: none after the last round. */
  function SideStep(cycle: nat, cycles: nat): seq<KeyEvent> {
    if cycle < cycles - 1 then Hold(if cycle % 2 == 0 then Right else Left) else []
  }

  /** Rounds `cycle` to `cycles - 1` of the cluster attack: each round taps the attack key and,
      except after the last, side-steps right on even rounds and left on odd ones. */
  function Sweep(cycle: nat, cycles: nat): seq<KeyEvent>
    decreases cycles - cycle
  {
    if cycle >= cycles then []
    else
      [Press(AttackKey)] + SideStep(cycle, cycles) + Sweep(cycle + 1, cycles)
  }

  /** Whether an attack happened, and the key events it sent. */
  datatype AttackOutcome = AttackOutcome(attacked: bool, keys: seq<KeyEvent>)

  predicate InAttackRange(player: Pos, target: Point, attackRange: int) {
    WithinDistR(target, ToPoint(player), attackRange as real)
  }

  /** The attacks after facing the target: the round sweep for a cluster of more than two, a
      single attack otherwise. */
  function AttackBody(t: Target): seq<KeyEvent> {
    if t.isCluster && t.monsterCount > 2 then Sweep(0, AttackCycles(t)) else [Press(AttackKey)]
  }

  /** `attack_target`: when the target is within attack range, face it and attack. */
  function AttackTarget(player: Pos, t: Target, attackRange: int): AttackOutcome {
    if InAttackRange(player, t.position, attackRange) then
      var face := if t.position.x > player.x as real then Press(Right) else Press(Left);
      AttackOutcome(true, [face] + AttackBody(t))
    else AttackOutcome(false, [])
  }

  /** One round of the sweep followed by the remaining rounds. */
  lemma SweepUnfold(cycle: nat, cycles: nat)
    requires cycle < cycles
    ensures Sweep(cycle, cycles) == [Press(AttackKey)] + (SideStep(cycle, cycles) + Sweep(cycle + 1, cycles))
  {
  }

  lemma SideStepShape(cycle: nat, cycles: nat)
    ensures CountPress(SideStep(cycle, cycles), AttackKey) == 0
    ensures HeldKeys(SideStep(cycle, cycles)) ==
      if cycle < cycles - 1 then [if cycle % 2 == 0 then Right else Left] else []
    ensures Balanced(SideStep(cycle, cycles))
  {
    var s := SideStep(cycle, cycles);
    if cycle < cycles - 1 {
      assert s[1..] == [s[1]];
      assert s[1..][1..] == [];
      HoldBalanced(if cycle % 2 == 0 then Right else Left);
    }
  }

  lemma {:induction false} SweepCount(cycle: nat, cycles: nat)
    requires cycle <= cycles
    ensures CountPress(Sweep(cycle, cycles), AttackKey) == cycles - cycle
    decreases cycles - cycle
  {
    if cycle < cycles {
      var tap: seq<KeyEvent> := [Press(AttackKey)];
      var step := SideStep(cycle, cycles);
      var rest := Sweep(cycle + 1, cycles);
      SweepUnfold(cycle, cycles);
      SweepCount(cycle + 1, cycles);
      SideStepShape(cycle, cycles);
      CountPressConcat(step, rest, AttackKey);
      CountPressConcat(tap, step + rest, AttackKey);
      assert tap[1..] == [];
    }
  }

  lemma {:induction false} SweepHeld(cycle: nat, cycles: nat)
    requires cycle <= cycles
    ensures |HeldKeys(Sweep(cycle, cycles))| == if cycle < cycles then cycles - 1 - cycle else 0
    ensures forall i :: 0 <= i < |HeldKeys(Sweep(cycle, cycles))| ==>
      HeldKeys(Sweep(cycle, cycles))[i] == (if (cycle + i) % 2 == 0 then Right else Left)
    decreases cycles - cycle
  {
    if cycle < cycles {
      var tap: seq<KeyEvent> := [Press(AttackKey)];
      var step := SideStep(cycle, cycles);
      var rest := Sweep(cycle + 1, cycles);
      SweepUnfold(cycle, cycles);
      SweepHeld(cycle + 1, cycles);
      SideStepShape(cycle, cycles);
      HeldKeysConcat(step, rest);
      HeldKeysConcat(tap, step + rest);
      assert tap[1..] == [];
      var held := HeldKeys(Sweep(cycle, cycles));
      assert held == HeldKeys(step) + HeldKeys(rest);
      forall i | 0 <= i < |held|
        ensures held[i] == (if (cycle + i) % 2 == 0 then Right else Left)
      {
        if i > 0 {
          assert held[i] == HeldKeys(rest)[i - 1];
          assert cycle + 1 + (i - 1) == cycle + i;
        }
      }
    }
  }

  lemma {:induction false} SweepBalanced(cycle: nat, cycles: nat)
    requires cycle <= cycles
    ensures Balanced(Sweep(cycle, cycles))
    decreases cycles - cycle
  {
    if cycle < cycles {
      var tap: seq<KeyEvent> := [Press(AttackKey)];
      var step := SideStep(cycle, cycles);
      var rest := Sweep(cycle + 1, cycles);
      SweepUnfold(cycle, cycles);
      SweepBalanced(cycle + 1, cycles);
      SideStepShape(cycle, cycles);
      TapBalanced(AttackKey);
      BalancedConcat(step, rest);
      BalancedConcat(tap, step + rest);
    }
  }

  /** Rounds `cycle` to `cycles - 1` tap the attack key once each, side-step right and left
      alternately between rounds, and leave no key held. */
  lemma SweepSpec(cycle: nat, cycles: nat)
    requires cycle <= cycles
    ensures CountPress(Sweep(cycle, cycles), AttackKey) == cycles - cycle
    ensures |HeldKeys(Sweep(cycle, cycles))| == if cycle < cycles then cycles - 1 - cycle else 0
    ensures forall i :: 0 <= i < |HeldKeys(Sweep(cycle, cycles))| ==>
      HeldKeys(Sweep(cycle, cycles))[i] == (if (cycle + i) % 2 == 0 then Right else Left)
    ensures Balanced(Sweep(cycle, cycles))
  {
    SweepCount(cycle, cycles);
    SweepHeld(cycle, cycles);
    SweepBalanced(cycle, cycles);
  }

  lemma AttackBodySpec(t: Target)
    ensures 1 <= AttackCycles(t) <= 5
    ensures CountPress(AttackBody(t), AttackKey) == AttackCycles(t)
    ensures |HeldKeys(AttackBody(t))| == AttackCycles(t) - 1
    ensures forall i :: 0 <= i < |HeldKeys(AttackBody(t))| ==>
      HeldKeys(AttackBody(t))[i] == (if i % 2 == 0 then Right else Left)
    ensures Balanced(AttackBody(t))
  {
    if t.isCluster && t.monsterCount > 2 {
      SweepSpec(0, AttackCycles(t));
    } else {
      TapBalanced(AttackKey);
      assert HeldKeys(AttackBody(t)) == [];
    }
  }

  /** The attack happens exactly when the target is within attack range, and then starts by
      facing the target. A cluster of more than two monsters is attacked for min(count, 5)
      rounds with alternating right and left side-steps between rounds; anything else gets one
      attack. Nothing is pressed out of range, and no key stays held. */
  lemma AttackTargetSpec(player: Pos, t: Target, attackRange: int)
    ensures var r := AttackTarget(player, t, attackRange);
      && (r.attacked <==> InAttackRange(player, t.position, attackRange))
      && (!r.attacked ==> r.keys == [])
      && Balanced(r.keys)
    ensures var r := AttackTarget(player, t, attackRange);
      r.attacked ==>
        && r.keys[0] == Press(if t.position.x > player.x as real then Right else Left)
        && 1 <= AttackCycles(t) <= 5
        && CountPress(r.keys, AttackKey) == AttackCycles(t)
        && |HeldKeys(r.keys)| == AttackCycles(t) - 1
        && forall i :: 0 <= i < |HeldKeys(r.keys)| ==>
             HeldKeys(r.keys)[i] == (if i % 2 == 0 then Right else Left)
  {
    var r := AttackTarget(player, t, attackRange);
    if r.attacked {
      var face := r.keys[0];
      var body := AttackBody(t);
      assert r.keys == [face] + body;
      assert face.Press? && face.key != AttackKey;
      TapBalanced(face.key);
      CountPressConcat([face], body, AttackKey);
      HeldKeysConcat([face], body);
      assert HeldKeys([face]) == [];
      AttackBodySpec(t);
      BalancedConcat([face], body);
    }
  }

  // ---------------------------------------------------------------------------------------------
  // Waiting for the platform to clear

  /** No detected monster is on the character's platform. */
  predicate PlatformClear(ms: seq<Detection>, player: Pos) {
    forall m :: m in ms ==> !SamePlatform(player, ToPoint(m.pos))
  }

  datatype WaitOutcome = WaitOutcome(cleared: bool, polls: nat)

  /** `wait_for_platform_clear`: `snapshots` are the monster detections of the polls that fit in
      the ten-second budget, one second apart. Stops at the first clear snapshot. */
  function WaitForPlatformClear(snapshots: seq<seq<Detection>>, player: Pos): (r: WaitOutcome)
    ensures r.cleared <==> exists i :: 0 <= i < |snapshots| && PlatformClear(snapshots[i], player)
    ensures r.polls <= |snapshots|
    ensures r.cleared ==> 1 <= r.polls && PlatformClear(snapshots[r.polls - 1], player)
    ensures forall j :: 0 <= j < r.polls - 1 ==> !PlatformClear(snapshots[j], player)
    ensures !r.cleared ==> r.polls == |snapshots|
  {
    if snapshots == [] then WaitOutcome(false, 0)
    else if PlatformClear(snapshots[0], player) then WaitOutcome(true, 1)
    else
      var r := WaitForPlatformClear(snapshots[1..], player);
      assert forall j :: 1 <= j < |snapshots| ==> snapshots[j] == snapshots[1..][j - 1];
      WaitOutcome(r.cleared, r.polls + 1)
  }
}
