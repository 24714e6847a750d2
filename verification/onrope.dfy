/** Is the character on a rope? `detect_player_on_rope` matches a dedicated "character on rope"
    template on the plain and the contrast-enhanced frame and, when that is not convincing,
    looks for a rope right above or below the character; without the template,
    `detect_player_on_rope_fallback` only checks whether the character stands inside a rope's
    box widened by a 20-pixel margin. */
module OnRope {
  import opened Wrappers
  import opened Geometry
  import opened Detections
  import opened Sorting
  import opened Indexing

  /** Margin around a rope box within which the character counts as on the rope. */
  const BoxMargin: int := 20

  predicate InRopeBox(rope: Detection, player: Pos) {
    var b := rope.box;
    && b.x - BoxMargin <= player.x <= b.x + b.w + BoxMargin
    && b.y - BoxMargin <= player.y <= b.y + b.h + BoxMargin
  }

  /** Index of the first rope whose widened box holds the character, or `|ropes|`. */
  function FirstRopeAround(ropes: seq<Detection>, player: Pos): (k: nat)
    ensures k <= |ropes|
    ensures k < |ropes| ==> InRopeBox(ropes[k], player)
    ensures forall j :: 0 <= j < k ==> !InRopeBox(ropes[j], player)
  {
    if ropes == [] then 0
    else if InRopeBox(ropes[0], player) then 0
    else 1 + FirstRopeAround(ropes[1..], player)
  }

  /** `detect_player_on_rope_fallback`: the first rope around the character, if any. */
  function OnRopeFallback(ropes: seq<Detection>, player: Pos): (r: Option<Detection>)
    ensures r.None? <==> forall rope :: rope in ropes ==> !InRopeBox(rope, player)
    ensures r.Some? ==> r.value in ropes && InRopeBox(r.value, player)
    ensures r.Some? ==> exists i :: 0 <= i < |ropes| && ropes[i] == r.value
                                   && forall j :: 0 <= j < i ==> !InRopeBox(ropes[j], player)
  {
    var k := FirstRopeAround(ropes, player);
    if k < |ropes| then Some(ropes[k]) else None
  }

  // ---------------------------------------------------------------------------------------------
  // Template-based detection

  /** `cv2.minMaxLoc` of the score grid at one scale that fits: the best score, its top-left
      corner, and the scaled template size. */
  datatype ScaleMax = ScaleMax(confidence: real, loc: Pos, width: int, height: int)

  /** A piece of evidence that the character is on a rope, with the position it implies. */
  datatype Evidence = Evidence(confidence: real, pos: Pos)

  const TemplateThreshold: real := 0.55
  const ConvincingConfidence: real := 0.7
  const RopePositionConfidence: real := 0.6

  function BestConf(best: Option<ScaleMax>): real {
    match best
    case None => 0.0
    case Some(m) => m.confidence
  }

  /** The scan over scales: a scale replaces the running best only when its score is strictly
      higher; the running best starts at confidence 0. */
  function BestFrom(results: seq<ScaleMax>, best: Option<ScaleMax>): Option<ScaleMax> {
    if results == [] then best
    else if results[0].confidence > BestConf(best) then BestFrom(results[1..], Some(results[0]))
    else BestFrom(results[1..], best)
  }

  function BestOverScales(results: seq<ScaleMax>): Option<ScaleMax> {
    BestFrom(results, None)
  }

  lemma {:induction false} BestFromSpec(results: seq<ScaleMax>, best: Option<ScaleMax>)
    ensures var r := BestFrom(results, best);
      && BestConf(r) >= BestConf(best)
      && (forall k :: 0 <= k < |results| ==> results[k].confidence <= BestConf(r))
      && (r == best || exists i :: 0 <= i < |results| && r == Some(results[i])
                                   && results[i].confidence > BestConf(best)
                                   && forall j :: 0 <= j < i ==> results[j].confidence < results[i].confidence)
  {
    if results != [] {
      var rest := results[1..];
      if results[0].confidence > BestConf(best) {
        BestFromSpec(rest, Some(results[0]));
      } else {
        BestFromSpec(rest, best);
      }
      var r := BestFrom(results, best);
      if r != best && r != Some(results[0]) {
        var nb := if results[0].confidence > BestConf(best) then Some(results[0]) else best;
        assert r == BestFrom(rest, nb);
        var i :| 0 <= i < |rest| && r == Some(rest[i]) && rest[i].confidence > BestConf(nb)
                 && forall j :: 0 <= j < i ==> rest[j].confidence < rest[i].confidence;
        assert results[i + 1] == rest[i];
        assert forall j :: 1 <= j < i + 1 ==> results[j] == rest[j - 1];
      }
    }
  }

  /** The best scale is the first one with the highest score, provided that score is positive;
      with no positive score there is none. */
  lemma BestOverScalesSpec(results: seq<ScaleMax>)
    ensures BestOverScales(results).None? <==> forall k :: 0 <= k < |results| ==> results[k].confidence <= 0.0
    ensures BestOverScales(results).Some? ==>
      var m := BestOverScales(results).value;
      && m.confidence > 0.0
      && (forall k :: 0 <= k < |results| ==> results[k].confidence <= m.confidence)
      && exists i :: 0 <= i < |results| && results[i] == m
                     && forall j :: 0 <= j < i ==> results[j].confidence < m.confidence
  {
    BestFromSpec(results, None);
  }

  /** The evidence one frame gives: the centre of the best match, if it reaches 0.55. */
  function ImageEvidence(results: seq<ScaleMax>): seq<Evidence> {
    match BestOverScales(results)
    case None => []
    case Some(m) =>
      if m.confidence >= TemplateThreshold
      then [Evidence(m.confidence, Pos(m.loc.x + m.width / 2, m.loc.y + m.height / 2))]
      else []
  }

  function TemplateEvidence(images: seq<seq<ScaleMax>>): seq<Evidence> {
    if images == [] then [] else ImageEvidence(images[0]) + TemplateEvidence(images[1..])
  }

  /** A rope whose centre is horizontally within half its width plus 20 pixels of the
      character: `abs(px - rx) < width / 2 + 20`. */
  predicate AlignedWith(rope: Detection, player: Pos) {
    2 * Abs(player.x - rope.pos.x) < rope.box.w + 2 * BoxMargin
  }

  /** The evidence one aligned rope gives: 0.6 at the rope's x and the character's y. */
  function RopePositionEvidence(rope: Detection, player: Pos): Evidence {
    Evidence(RopePositionConfidence, Pos(rope.pos.x, player.y))
  }

  /** Evidence from the rope positions, one entry per aligned rope, in the order of the ropes. */
  function RopeEvidence(ropes: seq<Detection>, player: Pos): (r: seq<Evidence>)
    ensures forall e :: e in r <==>
      exists rope :: rope in ropes && AlignedWith(rope, player) && e == RopePositionEvidence(rope, player)
  {
    if ropes == [] then []
    else
      var k := |ropes| - 1;
      var front := RopeEvidence(ropes[..k], player);
      assert forall rope :: rope in ropes <==> rope in ropes[..k] || rope == ropes[k];
      front + (if AlignedWith(ropes[k], player) then [RopePositionEvidence(ropes[k], player)] else [])
  }

  /** Which ropes are aligned with the character. */
  function AlignedFlags(ropes: seq<Detection>, player: Pos): (f: seq<bool>)
    ensures |f| == |ropes| && forall j :: 0 <= j < |ropes| ==> f[j] == AlignedWith(ropes[j], player)
  {
    seq(|ropes|, j requires 0 <= j < |ropes| => AlignedWith(ropes[j], player))
  }

  /** The entry every rope would give if it were aligned. */
  function RopeEntries(ropes: seq<Detection>, player: Pos): (es: seq<Evidence>)
    ensures |es| == |ropes| && forall j :: 0 <= j < |ropes| ==> es[j] == RopePositionEvidence(ropes[j], player)
  {
    seq(|ropes|, j requires 0 <= j < |ropes| => RopePositionEvidence(ropes[j], player))
  }

  lemma {:induction false} RopeEvidenceSelects(ropes: seq<Detection>, player: Pos)
    ensures RopeEvidence(ropes, player) == Select(RopeEntries(ropes, player), AlignedFlags(ropes, player))
  {
    if ropes != [] {
      var k := |ropes| - 1;
      var prefix := ropes[..k];
      RopeEvidenceSelects(prefix, player);
      assert RopeEntries(ropes, player) == RopeEntries(prefix, player) + [RopePositionEvidence(ropes[k], player)];
      assert AlignedFlags(ropes, player) == AlignedFlags(prefix, player) + [AlignedWith(ropes[k], player)];
      SelectSnoc(RopeEntries(prefix, player), AlignedFlags(prefix, player),
                 RopePositionEvidence(ropes[k], player), AlignedWith(ropes[k], player));
    }
  }

  /** One entry per aligned rope, in the order of the ropes: entry `k` comes from the rope at the
      `k`-th aligned position, the positions taken in increasing order, even when two ropes give
      equal entries. */
  lemma RopeEvidenceInOrder(ropes: seq<Detection>, player: Pos)
    ensures forall a, b :: 0 <= a < b < |Positions(AlignedFlags(ropes, player))| ==>
      Positions(AlignedFlags(ropes, player))[a] < Positions(AlignedFlags(ropes, player))[b]
    ensures |RopeEvidence(ropes, player)| == |Positions(AlignedFlags(ropes, player))|
    ensures forall k :: 0 <= k < |RopeEvidence(ropes, player)| ==>
      Positions(AlignedFlags(ropes, player))[k] < |ropes|
      && RopeEvidence(ropes, player)[k] == RopePositionEvidence(ropes[Positions(AlignedFlags(ropes, player))[k]], player)
  {
    PositionsIncreasing(AlignedFlags(ropes, player));
    RopeEvidenceSelects(ropes, player);
    SelectAtPositions(RopeEntries(ropes, player), AlignedFlags(ropes, player));
  }

  function MaxConfidence(es: seq<Evidence>): real
    requires es != []
  {
    if |es| == 1 then es[0].confidence
    else var m := MaxConfidence(es[1..]); if es[0].confidence > m then es[0].confidence else m
  }

  function EvidenceConfidence(e: Evidence): real {
    e.confidence
  }

  /** Template evidence, completed by rope-position evidence when there is none or none reaches
      0.7. */
  function AllEvidence(images: seq<seq<ScaleMax>>, ropes: seq<Detection>, player: Pos): seq<Evidence> {
    var te := TemplateEvidence(images);
    if te == [] || MaxConfidence(te) < ConvincingConfidence then te + RopeEvidence(ropes, player) else te
  }

  /** `detect_player_on_rope` with the template present: the most confident evidence, the first
      one among equals. */
  function DetectPlayerOnRope(images: seq<seq<ScaleMax>>, ropes: seq<Detection>, player: Pos): Option<Evidence> {
    var all := AllEvidence(images, ropes, player);
    if all == [] then None else Some(SortDesc(all, EvidenceConfidence)[0])
  }

  lemma {:induction false} MaxConfidenceIsMax(es: seq<Evidence>)
    requires es != []
    ensures forall e :: e in es ==> e.confidence <= MaxConfidence(es)
    ensures exists e :: e in es && e.confidence == MaxConfidence(es)
  {
    if |es| > 1 {
      MaxConfidenceIsMax(es[1..]);
      forall e | e in es
        ensures e.confidence <= MaxConfidence(es)
      {
        if e != es[0] {
          assert e in es[1..];
        }
      }
      var e :| e in es[1..] && e.confidence == MaxConfidence(es[1..]);
      assert e in es;
      if es[0].confidence > MaxConfidence(es[1..]) {
        assert es[0] in es && es[0].confidence == MaxConfidence(es);
      } else {
        assert e.confidence == MaxConfidence(es);
      }
    } else {
      assert es[0] in es && es[0].confidence == MaxConfidence(es);
    }
  }

  /** The character is judged on a rope exactly when some template evidence reaches 0.55 or,
      failing that, some rope is aligned with the character. The answer is the most confident
      evidence; when a template match reaches 0.7 the rope positions are not consulted and the
      answer is a template match of at least 0.7. */
  lemma DetectPlayerOnRopeSpec(images: seq<seq<ScaleMax>>, ropes: seq<Detection>, player: Pos)
    ensures DetectPlayerOnRope(images, ropes, player).None? <==>
      TemplateEvidence(images) == [] && forall rope :: rope in ropes ==> !AlignedWith(rope, player)
    ensures DetectPlayerOnRope(images, ropes, player).Some? ==>
      var e := DetectPlayerOnRope(images, ropes, player).value;
      && e in AllEvidence(images, ropes, player)
      && forall e' :: e' in AllEvidence(images, ropes, player) ==> e'.confidence <= e.confidence
    ensures (exists e :: e in TemplateEvidence(images) && e.confidence >= ConvincingConfidence) ==>
      var r := DetectPlayerOnRope(images, ropes, player);
      r.Some? && r.value in TemplateEvidence(images) && r.value.confidence >= ConvincingConfidence
  {
    var te := TemplateEvidence(images);
    var all := AllEvidence(images, ropes, player);
    if te == [] {
      if exists rope :: rope in ropes && AlignedWith(rope, player) {
        var rope :| rope in ropes && AlignedWith(rope, player);
        assert RopePositionEvidence(rope, player) in all;
      }
    }
    if all != [] {
      SortDescHeadIsMax(all, EvidenceConfidence);
    }
    if exists e :: e in te && e.confidence >= ConvincingConfidence {
      var e :| e in te && e.confidence >= ConvincingConfidence;
      MaxConfidenceIsMax(te);
      assert all == te;
    }
  }

  /** Whether the character is on a rope: with the dedicated template, the template-based
      detection; without it, the rope-box fallback. */
  function PlayerOnRope(templateScans: Option<seq<seq<ScaleMax>>>, ropes: seq<Detection>, player: Pos): (onRope: bool)
    ensures templateScans.None? ==> (onRope <==> exists rope :: rope in ropes && InRopeBox(rope, player))
  {
    match templateScans
    case None => OnRopeFallback(ropes, player).Some?
    case Some(images) => DetectPlayerOnRope(images, ropes, player).Some?
  }
}
