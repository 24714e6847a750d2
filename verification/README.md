# AutoTrainingBot decision core, in Dafny

`macro_smart.py` drives a side-scrolling game character: it takes screenshots, finds monsters,
ropes and platforms by template matching, and injects key presses to walk, jump, climb and
attack. This project models the decision layer of its `AutoTrainingBot` class with the screen
and the keyboard cut away: detections, correlation-score grids and observed screen changes are
inputs, and every action is the script of key events it would inject.

Modules, one per file:

- `Geometry` (geometry.dfy): pixel positions, real points, and squared distances. Every
  Euclidean test of the bot compares a square root against a bound; the model compares the
  squared distance with the squared bound instead.
- `Sorting` (sorting.dfy): the stable descending sort that Python's `sort(key=…, reverse=True)`
  performs, as an insertion sort with its sortedness, permutation and stability proved.
- `Indexing` (indexing.dfy): the positions at which a condition holds and the entries selected
  there. This is how the model states that a filtered list keeps the order and the
  multiplicity of its source.
- `Keys` (keys.dfy): key events (down, up, tap) and the check that a script never releases a
  key that is not held, never presses one twice, and leaves nothing held.
- `Detections` (detections.dfy): the detection record, with the optional priority explicit.
- `Priority` (priority.dfy): `get_monster_priority`.
- `Detector` (detector.dfy): the part of `find_objects` after `cv2.matchTemplate`; the score
  grid of each template at each scale is an input.
- `Dedup` (dedup.dfy): `remove_duplicates`, both as a function and as the nested loop of the
  source.
- `Clusters` (clusters.dfy): `find_monster_clusters`, `select_best_target_area`,
  `select_target_monster`.
- `ActionVerifier` (verifier.dfy): the change-percentage verdict of `improved_position_test`,
  the rope-descent methods and the first-success retry chain of `smart_climb_down_rope`.
- `OnRope` (onrope.dfy): `detect_player_on_rope` (template evidence, then rope-position
  evidence) and `detect_player_on_rope_fallback`.
- `Decisions` (decisions.dfy): `get_player_position`, `check_same_platform`, `handle_rope`,
  `move_to_target`, `attack_target`, `wait_for_platform_clear`.
- `TrainingLoop` (trainingloop.dfy): one pass of `auto_training_loop`, written once as the
  source does it (`DecideAsWritten`) and once as intended (`Decide`); see Findings.
- `Scenarios` (scenarios.dfy): concrete situations worked through the model.

Modelling choices:

- Distances: `sqrt(n) < d` is `d > 0 && n < d*d`, and `sqrt(n) <= r` is `r >= 0 && n <= r*r`
  (`Geometry.CloserThan`, `Geometry.WithinDist`). The cluster merge test `dist < radius / 2`
  is `radius > 0 && 4 * dist² < radius²`.
- Scales 0.8 to 1.2 are tenths 8 to 12, and `int(w * scale)` is `w * k / 10`.
- `str.lower()` folds ASCII letters only. Every keyword is ASCII lower case or CJK, and CJK has
  no case, so the keyword tests agree with Python on these keywords.
- Key scripts follow the `pyautogui` branch, because `use_pyautogui_keys` is `True` by
  default. The `time.sleep` durations are not modelled.
- The character position is always the screen centre (`get_player_position`), as in the loop.
- The platform branch of the loop calls `check_platform_monsters`, which the file does not
  define. When no monster and no rope is seen but a platform is, the call raises
  `AttributeError`. Only `KeyboardInterrupt` is caught, so the loop ends there. The model
  records this as the step `Halted`.
- After attacking a cluster target, the loop itself waits for the platform to clear
  (`wait_for_platform_clear`); `attack_target` never waits. Every target from
  `select_target_monster` is a cluster, so the wait always follows an attack.

## Model

| member | source | states |
|---|---|---|
| Sorting.SortDescSorted | macro_smart.py:264 | the descending sort yields a sequence ordered by non-increasing key |
| Sorting.SortDescPermutation | macro_smart.py:264 | the sort is a permutation of its input (same multiset) |
| Sorting.SortDescStable | macro_smart.py:264 | the sort is stable: for every key value, the elements with that key keep their input order |
| Sorting.SortDescOfSorted | macro_smart.py:1152 | sorting an already descending sequence returns it unchanged |
| Sorting.SortDescHeadIsMax | macro_smart.py:685-686 | the head of the sorted sequence has the greatest key and comes from the input |
| Priority.MonsterPriority | macro_smart.py:141-151 | the priority is one of 10, 8, 6, 5, and each tier is chosen exactly when its keyword group is in the lower-cased name and no higher group is |
| Priority.PriorityMonotoneInName | macro_smart.py:143-151 | adding text to a file name never lowers its priority: the highest tier present anywhere wins |
| Priority.PriorityIgnoresCase | macro_smart.py:143 | names that agree after lower-casing get the same priority |
| Priority.BossKeywordWins | macro_smart.py:144-145 | a name carrying "BOSS", "Elite" and "Rare" is a boss (10) |
| Detector.ScaleMatches | macro_smart.py:193-226 | a detection is reported at one scale exactly when the scaled template fits the frame and the score at its top-left corner reaches the threshold; its centre is corner plus half the size (order and multiplicity: the next three rows) |
| Detector.RowMatchesInOrder | macro_smart.py:202-205 | the matches of a score row come left to right, one per cell reaching the threshold: entry k is the match at the k-th such column, in increasing column order |
| Detector.GridMatchesAppend | macro_smart.py:202-205 | row-major order: a row added below the grid contributes its matches after those of every row above it |
| Detector.TwoCellRow | macro_smart.py:202-205 | a row with two cells above the threshold gives exactly two matches, the left one first |
| Detector.FindObjectsMembers | macro_smart.py:184-226 | a detection is reported exactly when some template at some of the five scales reports it |
| Detector.FindObjectsWellFormed | macro_smart.py:193-218 | every detection reaches the threshold, carries the category and one of the five scales, is centred on its box, and, given score grids of the shape `cv2.matchTemplate` returns ((H−h+1)×(W−w+1)), its box lies wholly inside the frame |
| Detector.FindObjectsThreshold | macro_smart.py:202-225 | raising the threshold keeps exactly the lower-threshold detections that reach the higher one, in the same order |
| Detector.LowerThresholdSuperset | macro_smart.py:202 | a lower threshold reports a superset of, and at least as many detections as, a higher one |
| Dedup.RemoveDuplicatesLoop | macro_smart.py:258-281 | the nested loop computes the greedy filter of the sorted input; its output is no longer than the input and pairwise at least `min_distance` apart |
| Dedup.GreedyCovers | macro_smart.py:266-279 | every input of the greedy pass is either kept or closer than `min_distance` to an earlier kept one |
| Dedup.RemoveDuplicatesSize | macro_smart.py:260-261 | empty input gives empty output; otherwise the output is non-empty, no longer than the input, and starts with a most confident detection |
| Dedup.RemoveDuplicatesSeparatesAndCovers | macro_smart.py:264-279 | kept detections are pairwise at least `min_distance` apart and come from the input; every dropped one is closer than `min_distance` to a kept one of equal or higher confidence |
| Dedup.RemoveDuplicatesOrdered | macro_smart.py:264-281 | the output is a subsequence of the stably confidence-sorted input and is ordered by non-increasing confidence |
| Dedup.RemoveDuplicatesIdempotent | macro_smart.py:258-281 | removing duplicates twice with the same distance equals removing them once |
| Clusters.NearbyUpTo | macro_smart.py:1105-1111 | the neighbours of a seed are exactly the other monsters at distance at most the radius, and there are fewer of them than monsters |
| Clusters.NearbyUpToInOrder | macro_smart.py:1105-1111 | the neighbours come in list order, one entry per qualifying list position: entry k is the monster at the k-th position (in increasing order) of a monster other than the seed within the radius, so a monster listed twice is a neighbour twice |
| Clusters.CandidateDefaultDensity | macro_smart.py:1114-1126 | with no priorities given, a candidate of n monsters has total priority 5n and density n·5n |
| Clusters.FirstSameArea | macro_smart.py:1135-1146 | the merge compares a candidate with the first kept cluster whose centre is closer than half the radius, and with no earlier one |
| Clusters.MergeAllCovers | macro_smart.py:1132-1149 | no candidate is lost without trace: for every candidate some surviving cluster has at least as many monsters, so the merge never loses the largest group size |
| Clusters.FindMonsterClustersSize | macro_smart.py:1093-1154 | no clusters exactly for no monsters; at most one cluster per monster; ranked by non-increasing density score |
| Clusters.FindMonsterClustersMembers | macro_smart.py:1114-1126 | every cluster starts with its seed, which is one of the monsters, and its density score is member count times total priority |
| Clusters.FindMonsterClustersCovers | macro_smart.py:1131-1154 | for every monster's candidate cluster, some returned cluster has at least as many monsters |
| Clusters.SingleMonsterCluster | macro_smart.py:1093-1154 | a single monster yields one cluster of one monster centred on it |
| Clusters.FallbackUnreachable | macro_smart.py:1164-1181 | with monsters there are always clusters, so the single-monster fallback is never taken |
| Clusters.SelectTargetMonsterSpec | macro_smart.py:392-411 | a target exists exactly when monsters do; it is the centre of the first ranked cluster, whose density score is the highest, with priority 10, marked as a cluster, counting between one and all monsters |
| ActionVerifier.ChangePercentage | macro_smart.py:350-352 | the percentage is non-negative, at most 100 when the changed pixels are among the total, and times the total equals 100 times the changed count |
| ActionVerifier.VerifyAction | macro_smart.py:350-390 | an action counts as effective exactly when more than one pixel in a thousand changed |
| ActionVerifier.ClassifyCountsThresholds | macro_smart.py:375-390 | the strength of the verdict is the number of thresholds 0.1, 0.5, 2.0 that the percentage exceeds |
| ActionVerifier.ClassifyMonotone | macro_smart.py:375-390 | a larger change never gives a weaker verdict, and effect is preserved |
| ActionVerifier.EffectIffAboveNoiseFloor | macro_smart.py:375-390 | strong, moderate and weak count as effect, exactly when the percentage exceeds 0.1 |
| ActionVerifier.SyntheticFramePairs | macro_smart.py:350-390 | 3% changed pixels is strong and effective; 0% is no effect |
| ActionVerifier.TryInOrder | macro_smart.py:808-846 | the chain succeeds exactly when some method succeeds, tries methods in order, stops at the first success, and tries all of them on failure |
| ActionVerifier.SmartClimbDownSpec | macro_smart.py:750-846 | the smart descent tries down, left jump, right jump in that order, stops at the first effective one, and leaves no key held |
| OnRope.OnRopeFallback | macro_smart.py:725-748 | the fallback answers the first rope whose box widened by 20 pixels holds the character, and none exactly when no such rope exists |
| OnRope.BestOverScalesSpec | macro_smart.py:625-647 | the best scale is the first with the highest positive score; with no positive score there is none |
| OnRope.RopeEvidence | macro_smart.py:657-680 | the rope-position entries are exactly the 0.6-confidence entries at (rope x, character y) of the ropes horizontally within half their width plus 20 pixels of the character |
| OnRope.RopeEvidenceInOrder | macro_smart.py:664-680 | there is one entry per aligned rope, in the order of the ropes: entry k comes from the rope at the k-th aligned position (in increasing order), even when two ropes give equal entries |
| OnRope.DetectPlayerOnRopeSpec | macro_smart.py:596-723 | on-rope is reported exactly when template evidence reaches 0.55 or a rope is aligned; the answer is the most confident evidence; a template match of 0.7 or more wins without consulting ropes |
| OnRope.PlayerOnRope | macro_smart.py:596-600 | without the dedicated template, the answer is whether some rope box widened by 20 pixels holds the character |
| Decisions.PlayerPosition | macro_smart.py:283-286 | the character is at the centre pixel of the screen, rounded down |
| Decisions.MonstersBelow | macro_smart.py:900-903 | the monsters below are exactly those more than 50 pixels below the character |
| Decisions.NearestRope | macro_smart.py:552-553 | the chosen rope is at minimal distance from the character and is the first such rope |
| Decisions.HandleRopeSpec | macro_smart.py:544-594 | a rope is mounted exactly when some rope is closer than 80 pixels, and no key event is sent otherwise; when mounting, the last key held is Up, Right is held exactly when the nearest rope is more than 15 pixels to the right and Left exactly when it is more than 15 pixels to the left; no key stays held |
| Decisions.MoveToTargetSpec | macro_smart.py:413-466 | Right or Left is held exactly when the target is more than 30 pixels to that side; Space is tapped once exactly when the target is more than 50 above or more than 100 below, with Down held in the second case; no key stays held |
| Decisions.SweepSpec | macro_smart.py:509-528 | the cluster sweep taps the attack key once per round and side-steps right, left, right, … between rounds, never after the last |
| Decisions.AttackTargetSpec | macro_smart.py:468-542 | the attack happens exactly within attack range, faces the target first, attacks min(count, 5) rounds for a cluster of more than two and once otherwise, and leaves no key held |
| Decisions.WaitForPlatformClear | macro_smart.py:859-881 | the wait succeeds exactly when some poll finds no monster within 50 pixels vertically, stopping at the first such poll; otherwise it uses every poll and fails |
| TrainingLoop.OnRopeSpec | macro_smart.py:889-931 | on a rope the pass descends exactly when a monster is more than 50 pixels below, using the strategy's methods in order, and otherwise taps Up |
| TrainingLoop.PursuesBestCluster | macro_smart.py:933-975 | off the rope with monsters in view, every step pursues the target at the centre of the densest cluster |
| TrainingLoop.AttackSpec | macro_smart.py:947-975 | the intended pass attacks exactly when the target is on the character's platform and within attack range, and then waits for the platform to clear |
| TrainingLoop.NoMonstersWithRopes | macro_smart.py:977-981 | with no monsters and ropes in view, a rope is mounted exactly when one is closer than 80 pixels, and nothing is done otherwise |
| TrainingLoop.NothingDetectedExplores | macro_smart.py:992-1005 | with nothing detected, the pass walks in the randomly chosen direction, leaving no key held |
| TrainingLoop.StepLeavesNoKeyHeld | macro_smart.py:883-1007 | every pass, written or intended, leaves no key held |
| TrainingLoop.AsWrittenDiffersOnlyAbove | macro_smart.py:947-975 | the written and intended passes differ exactly when the target is off the platform, above it, in range and no rope was mounted; the written one then attacks and the intended one approaches |
| TrainingLoop.AsWrittenAttacksOffPlatform | macro_smart.py:947-965 | a monster 110 pixels above the character with no rope in view is attacked by the written loop although it is not on the character's platform |
| TrainingLoop.AttackOnlyOnPlatformInRange | macro_smart.py:962-965 | the intended pass attacks only targets on the character's platform and within attack range |
| Scenarios.PairBeatsLoneEnemy | macro_smart.py:1093-1181 | of two enemies 50 pixels apart and a third far away, all of default priority, the pair is chosen, centred between them |
| Scenarios.FarGroupIsApproached | macro_smart.py:933-975 | an enemy 200 pixels to the right loses to a group of three centred 300 pixels to the left; out of range, the pass walks left towards the group |
| Scenarios.EnemyBelowRopeDescends | macro_smart.py:889-916 | on a rope with an enemy 80 pixels below, the pass descends, starting by holding Down, and does not attack |

## Left out

- Screen capture, `cv2.matchTemplate`, `cv2.resize`, `cv2.minMaxLoc`, `cv2.absdiff` and
  `cv2.countNonZero`: their results are inputs (score grids, per-scale maxima, pixel counts).
- The contrast enhancement of `detect_player_on_rope`: the enhanced frame is just a second list
  of per-scale maxima.
- Key injection and every `time.sleep`, including the walking time `min(|dx| / 200, 1.0)`:
  actions are key-event scripts without durations.
- The `pynput` branch of every action (`use_pyautogui_keys = False`): it presses the same keys
  with different timing.
- Template loading (`load_all_templates`) and the debug images and screenshots written to disk.
- `get_precise_player_position`: the loop does not use it.
- `attack_target` called with a bare position instead of a target record: the loop never does
  this.
- The random exploration direction and the wait's ten-second clock: both are inputs (a boolean
  and the list of snapshots polled before the time ran out).
- The platform branch's helper `check_platform_monsters`: it is not defined, so it has no
  behaviour to model beyond the stop it causes.
- The `KeyboardInterrupt` shutdown, the interactive tests, the menu and the colour-detection
  experiment.
- Floating-point rounding: distances and percentages are exact reals or integers.
- ActionVerifier.ChangePercentage: requires a non-empty frame, because a frame of zero pixels
  would divide by zero in the source.
- `remove_duplicates` sorts the caller's list in place before filtering; the model returns a
  fresh sequence and leaves its input unchanged. Nothing in the file calls `remove_duplicates`,
  so no caller can observe the reordering.
- OnRope.DetectPlayerOnRopeSpec: the scales that do not fit the frame are dropped before the
  per-scale maxima are given, rather than modelled.

## Findings

| source | as written | input that shows it | evidently intended | confidence | as-written member | corrected member |
|---|---|---|---|---|---|---|
| macro_smart.py:947-965 | a target that is not on the character's platform but above it, with no rope in view or none within 80 pixels, falls through to the range test and is attacked | character at (960, 540) on a 1920x1080 screen, one monster at (960, 430), no ropes: the target is 110 pixels above and within range 150, so the loop attacks | attack only targets on the character's platform, as the comments at lines 936 and 963 say; otherwise walk and jump towards the target | not executed | TrainingLoop.DecideAsWritten, TrainingLoop.AsWrittenAttacksOffPlatform | TrainingLoop.Decide, TrainingLoop.AttackOnlyOnPlatformInRange |
