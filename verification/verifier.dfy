/** Action verification (`improved_position_test`) and the rope-descent retry chain
    (`climb_down_rope`, `simple_climb_down_rope`, `smart_climb_down_rope`). The frames captured
    before and after an action are compared pixel by pixel by OpenCV; the model starts from the
    resulting counts of changed and total pixels, or from the change percentage an attempt
    produced. */
module ActionVerifier {
  import opened Keys

  /** `change_pixels / total_pixels * 100`. A frame always has pixels. */
  function ChangePercentage(changed: nat, total: nat): (p: real)
    requires 0 < total
    ensures 0.0 <= p
    ensures changed <= total ==> p <= 100.0
    ensures p * total as real == 100.0 * changed as real
  {
    changed as real / total as real * 100.0
  }

  datatype Verdict = Strong | Moderate | Weak | NoEffect

  /** The tiers: more than 2% is a strong change, more than 0.5% a moderate one, more than 0.1% a
      weak one, anything else no effect. */
  function Classify(p: real): Verdict {
    if p > 2.0 then Strong
    else if p > 0.5 then Moderate
    else if p > 0.1 then Weak
    else NoEffect
  }

  /** Strong, moderate and weak changes all count as success; only "no effect" fails. */
  predicate HadEffect(v: Verdict) {
    !v.NoEffect?
  }

  function Strength(v: Verdict): nat {
    match v
    case Strong => 3
    case Moderate => 2
    case Weak => 1
    case NoEffect => 0
  }

  const Thresholds: seq<real> := [0.1, 0.5, 2.0]

  /** How many of the thresholds `p` strictly exceeds. */
  function Exceeded(ts: seq<real>, p: real): nat {
    if ts == [] then 0 else (if p > ts[0] then 1 else 0) + Exceeded(ts[1..], p)
  }

  /** The verdict of `improved_position_test` from the pixel counts. */
  function VerifyAction(changed: nat, total: nat): (ok: bool)
    requires 0 < total
    ensures ok <==> 1000 * changed > total
  {
    var p := ChangePercentage(changed, total);
    AboveNoiseFloorIff(p, changed, total);
    HadEffect(Classify(p))
  }

  lemma AboveNoiseFloorIff(p: real, changed: nat, total: nat)
    requires 0 < total
    requires p * total as real == 100.0 * changed as real
    ensures p > 0.1 <==> 1000 * changed > total
  {
    var t := total as real;
    var c := changed as real;
    if p > 0.1 {
      MulPositive(p - 0.1, t);
      assert (p - 0.1) * t == p * t - 0.1 * t;
      assert 1000.0 * c > t;
    } else {
      MulNonNegative(0.1 - p, t);
      assert (0.1 - p) * t == 0.1 * t - p * t;
      assert 1000.0 * c <= t;
    }
  }

  lemma MulPositive(a: real, b: real)
    requires a > 0.0 && b > 0.0
    ensures a * b > 0.0
  {
  }

  lemma MulNonNegative(a: real, b: real)
    requires a >= 0.0 && b >= 0.0
    ensures a * b >= 0.0
  {
  }

  /** The strength of the verdict is the number of tier thresholds the change exceeds. */
  lemma ClassifyCountsThresholds(p: real)
    ensures Strength(Classify(p)) == Exceeded(Thresholds, p)
  {
    var t1 := Thresholds[1..];
    var t2 := t1[1..];
    assert t1 == [0.5, 2.0] && t2 == [2.0] && t2[1..] == [];
    assert Exceeded(t2, p) == (if p > 2.0 then 1 else 0);
    assert Exceeded(t1, p) == (if p > 0.5 then 1 else 0) + Exceeded(t2, p);
  }

  /** A larger change never gets a weaker verdict. */
  lemma ClassifyMonotone(p: real, q: real)
    requires p <= q
    ensures Strength(Classify(p)) <= Strength(Classify(q))
    ensures HadEffect(Classify(p)) ==> HadEffect(Classify(q))
  {
  }

  /** An action had an effect exactly when more than 0.1% of the pixels changed. */
  lemma EffectIffAboveNoiseFloor(p: real)
    ensures HadEffect(Classify(p)) <==> p > 0.1
  {
  }

  /** 3% changed pixels is a strong change; an unchanged frame is no effect. */
  lemma SyntheticFramePairs()
    ensures Classify(ChangePercentage(3, 100)) == Strong && VerifyAction(3, 100)
    ensures Classify(ChangePercentage(0, 100)) == NoEffect && !VerifyAction(0, 100)
  {
  }

  // ---------------------------------------------------------------------------------------------
  // Rope descent

  datatype DescentMethod = HoldDown | LeftJump | RightJump

  /** Keys injected by `climb_down_rope(method)`. */
  function DescentKeys(m: DescentMethod): seq<KeyEvent> {
    match m
    case HoldDown => Hold(Down)
    case LeftJump => HoldWhileTapping(Left, Space)
    case RightJump => HoldWhileTapping(Right, Space)
  }

  lemma DescentKeysBalanced(m: DescentMethod)
    ensures Balanced(DescentKeys(m))
  {
    match m
    case HoldDown => HoldBalanced(Down);
    case LeftJump => HoldWhileTappingBalanced(Left, Space);
    case RightJump => HoldWhileTappingBalanced(Right, Space);
  }

  /** The order of `smart_climb_down_rope`; `simple_climb_down_rope` tries the first only. */
  const SmartOrder: seq<DescentMethod> := [HoldDown, LeftJump, RightJump]
  const SimpleOrder: seq<DescentMethod> := [HoldDown]

  /** `observe(m)` is the change percentage seen when method `m` was tried. */
  predicate Succeeds(m: DescentMethod, observe: DescentMethod -> real) {
    HadEffect(Classify(observe(m)))
  }

  datatype Attempts = Attempts(success: bool, tried: seq<DescentMethod>)

  /** Tries the methods in order, verifying each, and stops at the first that had an effect. */
  function TryInOrder(methods: seq<DescentMethod>, observe: DescentMethod -> real): (r: Attempts)
    ensures r.success <==> exists i :: 0 <= i < |methods| && Succeeds(methods[i], observe)
    ensures r.tried <= methods
    ensures forall k :: 0 <= k < |r.tried| - 1 ==> !Succeeds(r.tried[k], observe)
    ensures r.success ==> r.tried != [] && Succeeds(r.tried[|r.tried| - 1], observe)
    ensures !r.success ==> r.tried == methods
  {
    if methods == [] then Attempts(false, [])
    else if Succeeds(methods[0], observe) then Attempts(true, [methods[0]])
    else
      var rest := TryInOrder(methods[1..], observe);
      assert forall i :: 1 <= i < |methods| ==> methods[i] == methods[1..][i - 1];
      Attempts(rest.success, [methods[0]] + rest.tried)
  }

  /** The keys injected by the attempts made, one descent after another. */
  function AttemptKeys(tried: seq<DescentMethod>): seq<KeyEvent> {
    if tried == [] then [] else DescentKeys(tried[0]) + AttemptKeys(tried[1..])
  }

  lemma {:induction false} AttemptKeysBalanced(tried: seq<DescentMethod>)
    ensures Balanced(AttemptKeys(tried))
  {
    if tried != [] {
      AttemptKeysBalanced(tried[1..]);
      DescentKeysBalanced(tried[0]);
      BalancedConcat(DescentKeys(tried[0]), AttemptKeys(tried[1..]));
    }
  }

  /** The smart descent succeeds exactly when one of hold-down, left jump, right jump had an
      effect, tries them in that order, tries nothing after the first success, and leaves no key
      held. */
  lemma SmartClimbDownSpec(observe: DescentMethod -> real)
    ensures var r := TryInOrder(SmartOrder, observe);
      && (r.success <==> Succeeds(HoldDown, observe) || Succeeds(LeftJump, observe) || Succeeds(RightJump, observe))
      && (Succeeds(HoldDown, observe) ==> r.tried == [HoldDown])
      && (!Succeeds(HoldDown, observe) && Succeeds(LeftJump, observe) ==> r.tried == [HoldDown, LeftJump])
      && Balanced(AttemptKeys(r.tried))
  {
    var r := TryInOrder(SmartOrder, observe);
    if r.success {
      var i :| 0 <= i < 3 && Succeeds(SmartOrder[i], observe);
    }
    if Succeeds(RightJump, observe) {
      assert SmartOrder[2] == RightJump;
    }
    AttemptKeysBalanced(r.tried);
  }
}
