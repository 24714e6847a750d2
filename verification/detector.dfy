/** The threshold filter of `find_objects`: every template is tried at five scales; a scale whose
    scaled template does not fit in the frame is skipped; otherwise every location of the
    correlation-score grid whose score reaches the threshold becomes one detection, in row-major
    order. The correlation itself (`cv2.matchTemplate`) is an input: `corr(tpl, scale)` is the
    score grid of template `tpl` resized by `scale` tenths, indexed `[y][x]` by top-left corner. */
module Detector {
  import opened Wrappers
  import opened Geometry
  import opened Detections
  import opened Indexing

  datatype Template = Template(name: string, width: nat, height: nat, priority: Option<int>)

  /** Size of the captured frame. */
  datatype Frame = Frame(width: nat, height: nat)

  type Grid = seq<seq<real>>

  /** The scales 0.8, 0.9, 1.0, 1.1 and 1.2, in tenths. */
  const Scales: seq<nat> := [8, 9, 10, 11, 12]

  /** `int(length * scale)` for a scale given in tenths. */
  function Scaled(length: nat, tenths: nat): nat {
    length * tenths / 10
  }

  predicate Fits(frame: Frame, tpl: Template, tenths: nat) {
    Scaled(tpl.width, tenths) <= frame.width && Scaled(tpl.height, tenths) <= frame.height
  }

  /** The detection reported for a score at top-left corner (x, y). */
  function MatchAt(tpl: Template, tenths: nat, kind: Kind, x: int, y: int, score: real): Detection {
    var w := Scaled(tpl.width, tenths);
    var h := Scaled(tpl.height, tenths);
    Detection(tpl.name, Pos(x + w / 2, y + h / 2), Box(x, y, w, h), score, tenths, kind, tpl.priority)
  }

  /** The detection's position is the centre of its box, rounded down. */
  predicate Centred(d: Detection) {
    d.pos == Pos(d.box.x + d.box.w / 2, d.box.y + d.box.h / 2)
  }

  /** The detections whose confidence reaches `t`, in order. */
  function AtLeast(ds: seq<Detection>, t: real): (r: seq<Detection>)
    ensures |r| <= |ds|
  {
    if ds == [] then []
    else (if ds[0].confidence >= t then [ds[0]] else []) + AtLeast(ds[1..], t)
  }

  lemma {:induction false} AtLeastConcat(a: seq<Detection>, b: seq<Detection>, t: real)
    ensures AtLeast(a + b, t) == AtLeast(a, t) + AtLeast(b, t)
  {
    if a == [] {
      assert a + b == b;
    } else {
      var head := if a[0].confidence >= t then [a[0]] else [];
      assert (a + b)[0] == a[0];
      assert (a + b)[1..] == a[1..] + b;
      assert AtLeast(a + b, t) == head + AtLeast(a[1..] + b, t);
      AtLeastConcat(a[1..], b, t);
      assert AtLeast(a, t) == head + AtLeast(a[1..], t);
    }
  }

  lemma AtLeastMembers(ds: seq<Detection>, t: real)
    ensures forall d :: d in AtLeast(ds, t) <==> d in ds && d.confidence >= t
  {
  }

  /** Matches of row `y` of the score grid, left to right. */
  function RowMatches(row: seq<real>, y: int, t: real, tpl: Template, tenths: nat, kind: Kind): (r: seq<Detection>)
    ensures forall d :: d in r <==>
      exists x :: 0 <= x < |row| && row[x] >= t && d == MatchAt(tpl, tenths, kind, x, y, row[x])
  {
    if row == [] then []
    else
      var x := |row| - 1;
      var front := RowMatches(row[..x], y, t, tpl, tenths, kind);
      assert forall x' :: 0 <= x' < x ==> row[..x][x'] == row[x'];
      front + (if row[x] >= t then [MatchAt(tpl, tenths, kind, x, y, row[x])] else [])
  }

  /** Matches of the whole grid in row-major order (top row first). */
  function GridMatches(g: Grid, t: real, tpl: Template, tenths: nat, kind: Kind): (r: seq<Detection>)
    ensures forall d :: d in r <==>
      exists y, x :: 0 <= y < |g| && 0 <= x < |g[y]| && g[y][x] >= t
                     && d == MatchAt(tpl, tenths, kind, x, y, g[y][x])
  {
    if g == [] then []
    else
      var y := |g| - 1;
      var front := GridMatches(g[..y], t, tpl, tenths, kind);
      assert forall y' :: 0 <= y' < y ==> g[..y][y'] == g[y'];
      front + RowMatches(g[y], y, t, tpl, tenths, kind)
  }

  /** Which cells of a row reach the threshold. */
  function RowFlags(row: seq<real>, t: real): (f: seq<bool>)
    ensures |f| == |row| && forall x :: 0 <= x < |row| ==> f[x] == (row[x] >= t)
  {
    seq(|row|, x requires 0 <= x < |row| => row[x] >= t)
  }

  /** The detection every cell of row `y` would give if it reached the threshold. */
  function RowCells(row: seq<real>, y: int, tpl: Template, tenths: nat, kind: Kind): (ds: seq<Detection>)
    ensures |ds| == |row| && forall x :: 0 <= x < |row| ==> ds[x] == MatchAt(tpl, tenths, kind, x, y, row[x])
  {
    seq(|row|, x requires 0 <= x < |row| => MatchAt(tpl, tenths, kind, x, y, row[x]))
  }

  lemma RowCellsSnoc(row: seq<real>, y: int, tpl: Template, tenths: nat, kind: Kind)
    requires row != []
    ensures RowCells(row, y, tpl, tenths, kind)
            == RowCells(row[..|row| - 1], y, tpl, tenths, kind)
               + [MatchAt(tpl, tenths, kind, |row| - 1, y, row[|row| - 1])]
  {
  }

  lemma RowFlagsSnoc(row: seq<real>, t: real)
    requires row != []
    ensures RowFlags(row, t) == RowFlags(row[..|row| - 1], t) + [row[|row| - 1] >= t]
  {
  }

  lemma {:induction false} RowMatchesSelects(row: seq<real>, y: int, t: real, tpl: Template, tenths: nat, kind: Kind)
    ensures RowMatches(row, y, t, tpl, tenths, kind) == Select(RowCells(row, y, tpl, tenths, kind), RowFlags(row, t))
  {
    if row != [] {
      var x := |row| - 1;
      var prefix := row[..x];
      RowMatchesSelects(prefix, y, t, tpl, tenths, kind);
      RowCellsSnoc(row, y, tpl, tenths, kind);
      RowFlagsSnoc(row, t);
      assert RowMatches(row, y, t, tpl, tenths, kind)
             == RowMatches(prefix, y, t, tpl, tenths, kind)
                + (if row[x] >= t then [MatchAt(tpl, tenths, kind, x, y, row[x])] else []);
      SelectSnoc(RowCells(prefix, y, tpl, tenths, kind), RowFlags(prefix, t),
                 MatchAt(tpl, tenths, kind, x, y, row[x]), row[x] >= t);
    }
  }

  /** The matches of a row come left to right, one per cell that reaches the threshold: entry
      `k` is the match at the `k`-th such column, the columns taken in increasing order. */
  lemma RowMatchesInOrder(row: seq<real>, y: int, t: real, tpl: Template, tenths: nat, kind: Kind)
    ensures forall a, b :: 0 <= a < b < |Positions(RowFlags(row, t))| ==>
      Positions(RowFlags(row, t))[a] < Positions(RowFlags(row, t))[b]
    ensures |RowMatches(row, y, t, tpl, tenths, kind)| == |Positions(RowFlags(row, t))|
    ensures forall k :: 0 <= k < |RowMatches(row, y, t, tpl, tenths, kind)| ==>
      Positions(RowFlags(row, t))[k] < |row|
      && RowMatches(row, y, t, tpl, tenths, kind)[k]
         == MatchAt(tpl, tenths, kind, Positions(RowFlags(row, t))[k], y, row[Positions(RowFlags(row, t))[k]])
  {
    PositionsIncreasing(RowFlags(row, t));
    RowMatchesSelects(row, y, t, tpl, tenths, kind);
    SelectAtPositions(RowCells(row, y, tpl, tenths, kind), RowFlags(row, t));
  }

  /** A row with two cells above the threshold gives exactly two matches, left one first. */
  lemma TwoCellRow(y: int, tpl: Template, tenths: nat, kind: Kind)
    ensures RowMatches([0.9, 0.8], y, 0.5, tpl, tenths, kind)
            == [MatchAt(tpl, tenths, kind, 0, y, 0.9), MatchAt(tpl, tenths, kind, 1, y, 0.8)]
  {
    var row: seq<real> := [0.9, 0.8];
    assert row[..1] == [0.9];
    assert [0.9][..0] == [];
    assert RowMatches([0.9], y, 0.5, tpl, tenths, kind) == [MatchAt(tpl, tenths, kind, 0, y, 0.9)];
  }

  /** Row-major order: adding a row at the bottom of the grid appends that row's matches after
      the matches of every row above it. */
  lemma GridMatchesAppend(g: Grid, row: seq<real>, t: real, tpl: Template, tenths: nat, kind: Kind)
    ensures GridMatches(g + [row], t, tpl, tenths, kind)
            == GridMatches(g, t, tpl, tenths, kind) + RowMatches(row, |g|, t, tpl, tenths, kind)
  {
    assert (g + [row])[..|g|] == g;
  }

  /** One template at one scale: nothing when the scaled template exceeds the frame. */
  function ScaleMatches(frame: Frame, tpl: Template, tenths: nat, g: Grid, t: real, kind: Kind): (r: seq<Detection>)
    ensures forall d :: d in r <==>
      Fits(frame, tpl, tenths) &&
      exists y, x :: 0 <= y < |g| && 0 <= x < |g[y]| && g[y][x] >= t
                     && d == MatchAt(tpl, tenths, kind, x, y, g[y][x])
  {
    if !Fits(frame, tpl, tenths) then [] else GridMatches(g, t, tpl, tenths, kind)
  }

  function TemplateMatches(frame: Frame, tpl: Template, scales: seq<nat>, corr: (Template, nat) -> Grid,
                           t: real, kind: Kind): seq<Detection>
  {
    if scales == [] then []
    else ScaleMatches(frame, tpl, scales[0], corr(tpl, scales[0]), t, kind)
         + TemplateMatches(frame, tpl, scales[1..], corr, t, kind)
  }

  /** Every detection of every template at every scale, template by template. No duplicate
      suppression happens here. */
  function FindObjects(frame: Frame, templates: seq<Template>, corr: (Template, nat) -> Grid,
                       t: real, kind: Kind): seq<Detection>
  {
    if templates == [] then []
    else TemplateMatches(frame, templates[0], Scales, corr, t, kind)
         + FindObjects(frame, templates[1..], corr, t, kind)
  }

  /** The shape `cv2.matchTemplate` gives the score grid of a template that fits: one row per
      vertical position and one column per horizontal position at which the scaled template
      lies wholly inside the frame. */
  predicate GridShaped(frame: Frame, tpl: Template, tenths: nat, g: Grid) {
    && |g| == frame.height - Scaled(tpl.height, tenths) + 1
    && forall y :: 0 <= y < |g| ==> |g[y]| == frame.width - Scaled(tpl.width, tenths) + 1
  }

  /** The correlation is shaped as `cv2.matchTemplate` shapes it, for every template and scale
      that fits. */
  predicate CorrShaped(frame: Frame, templates: seq<Template>, corr: (Template, nat) -> Grid) {
    forall tpl, s :: tpl in templates && s in Scales && Fits(frame, tpl, s) ==> GridShaped(frame, tpl, s, corr(tpl, s))
  }

  /** Properties every reported detection has. */
  predicate WellFormed(d: Detection, frame: Frame, t: real, kind: Kind) {
    && d.confidence >= t
    && d.kind == kind
    && d.scale in Scales
    && Centred(d)
    && 0 <= d.box.x && 0 <= d.box.w && d.box.x + d.box.w <= frame.width
    && 0 <= d.box.y && 0 <= d.box.h && d.box.y + d.box.h <= frame.height
  }

  lemma {:induction false} TemplateMatchesMembers(frame: Frame, tpl: Template, scales: seq<nat>,
                                                  corr: (Template, nat) -> Grid, t: real, kind: Kind)
    ensures forall d :: d in TemplateMatches(frame, tpl, scales, corr, t, kind) <==>
      exists s :: s in scales && d in ScaleMatches(frame, tpl, s, corr(tpl, s), t, kind)
  {
    if scales != [] {
      TemplateMatchesMembers(frame, tpl, scales[1..], corr, t, kind);
      forall d, s | s in scales && d in ScaleMatches(frame, tpl, s, corr(tpl, s), t, kind)
        ensures d in TemplateMatches(frame, tpl, scales, corr, t, kind)
      {
        if s != scales[0] {
          assert s in scales[1..];
        }
      }
    }
  }

  /** A detection is reported exactly when some template at some scale reports it. */
  lemma {:induction false} FindObjectsMembers(frame: Frame, templates: seq<Template>,
                                              corr: (Template, nat) -> Grid, t: real, kind: Kind)
    ensures forall d :: d in FindObjects(frame, templates, corr, t, kind) <==>
      exists tpl, s :: tpl in templates && s in Scales
                       && d in ScaleMatches(frame, tpl, s, corr(tpl, s), t, kind)
  {
    if templates != [] {
      FindObjectsMembers(frame, templates[1..], corr, t, kind);
      TemplateMatchesMembers(frame, templates[0], Scales, corr, t, kind);
      forall d, tpl, s | tpl in templates && s in Scales
                         && d in ScaleMatches(frame, tpl, s, corr(tpl, s), t, kind)
        ensures d in FindObjects(frame, templates, corr, t, kind)
      {
        if tpl != templates[0] {
          assert tpl in templates[1..];
        }
      }
    }
  }

  /** Every reported detection reaches the threshold, carries the category and one of the five
      scales, is centred on its box, and its box lies wholly inside the frame. */
  lemma FindObjectsWellFormed(frame: Frame, templates: seq<Template>, corr: (Template, nat) -> Grid,
                              t: real, kind: Kind)
    requires CorrShaped(frame, templates, corr)
    ensures forall d :: d in FindObjects(frame, templates, corr, t, kind) ==> WellFormed(d, frame, t, kind)
  {
    FindObjectsMembers(frame, templates, corr, t, kind);
    forall d | d in FindObjects(frame, templates, corr, t, kind)
      ensures WellFormed(d, frame, t, kind)
    {
      var tpl, s :| tpl in templates && s in Scales
                    && d in ScaleMatches(frame, tpl, s, corr(tpl, s), t, kind);
      var g := corr(tpl, s);
      var y, x :| 0 <= y < |g| && 0 <= x < |g[y]| && g[y][x] >= t
                  && d == MatchAt(tpl, s, kind, x, y, g[y][x]);
    }
  }

  lemma {:induction false} RowMatchesThreshold(row: seq<real>, y: int, t1: real, t2: real,
                                               tpl: Template, tenths: nat, kind: Kind)
    requires t1 <= t2
    ensures RowMatches(row, y, t2, tpl, tenths, kind) == AtLeast(RowMatches(row, y, t1, tpl, tenths, kind), t2)
  {
    if row != [] {
      var x := |row| - 1;
      RowMatchesThreshold(row[..x], y, t1, t2, tpl, tenths, kind);
      var last := if row[x] >= t1 then [MatchAt(tpl, tenths, kind, x, y, row[x])] else [];
      AtLeastConcat(RowMatches(row[..x], y, t1, tpl, tenths, kind), last, t2);
    }
  }

  lemma {:induction false} GridMatchesThreshold(g: Grid, t1: real, t2: real, tpl: Template, tenths: nat, kind: Kind)
    requires t1 <= t2
    ensures GridMatches(g, t2, tpl, tenths, kind) == AtLeast(GridMatches(g, t1, tpl, tenths, kind), t2)
  {
    if g != [] {
      var y := |g| - 1;
      GridMatchesThreshold(g[..y], t1, t2, tpl, tenths, kind);
      RowMatchesThreshold(g[y], y, t1, t2, tpl, tenths, kind);
      AtLeastConcat(GridMatches(g[..y], t1, tpl, tenths, kind), RowMatches(g[y], y, t1, tpl, tenths, kind), t2);
    }
  }

  lemma {:induction false} TemplateMatchesThreshold(frame: Frame, tpl: Template, scales: seq<nat>,
                                                    corr: (Template, nat) -> Grid, t1: real, t2: real, kind: Kind)
    requires t1 <= t2
    ensures TemplateMatches(frame, tpl, scales, corr, t2, kind)
            == AtLeast(TemplateMatches(frame, tpl, scales, corr, t1, kind), t2)
  {
    if scales != [] {
      var s := scales[0];
      TemplateMatchesThreshold(frame, tpl, scales[1..], corr, t1, t2, kind);
      if Fits(frame, tpl, s) {
        GridMatchesThreshold(corr(tpl, s), t1, t2, tpl, s, kind);
      }
      AtLeastConcat(ScaleMatches(frame, tpl, s, corr(tpl, s), t1, kind),
                    TemplateMatches(frame, tpl, scales[1..], corr, t1, kind), t2);
    }
  }

  /** Raising the threshold keeps exactly the lower-threshold detections that reach the higher
      one, in the same order. */
  lemma {:induction false} FindObjectsThreshold(frame: Frame, templates: seq<Template>,
                                                corr: (Template, nat) -> Grid, t1: real, t2: real, kind: Kind)
    requires t1 <= t2
    ensures FindObjects(frame, templates, corr, t2, kind)
            == AtLeast(FindObjects(frame, templates, corr, t1, kind), t2)
  {
    if templates != [] {
      TemplateMatchesThreshold(frame, templates[0], Scales, corr, t1, t2, kind);
      FindObjectsThreshold(frame, templates[1..], corr, t1, t2, kind);
      AtLeastConcat(TemplateMatches(frame, templates[0], Scales, corr, t1, kind),
                    FindObjects(frame, templates[1..], corr, t1, kind), t2);
    }
  }

  /** A lower threshold reports a superset of what a higher threshold reports. */
  lemma LowerThresholdSuperset(frame: Frame, templates: seq<Template>, corr: (Template, nat) -> Grid,
                               t1: real, t2: real, kind: Kind)
    requires t1 <= t2
    ensures forall d :: d in FindObjects(frame, templates, corr, t2, kind)
                        ==> d in FindObjects(frame, templates, corr, t1, kind)
    ensures |FindObjects(frame, templates, corr, t2, kind)| <= |FindObjects(frame, templates, corr, t1, kind)|
  {
    FindObjectsThreshold(frame, templates, corr, t1, t2, kind);
    AtLeastMembers(FindObjects(frame, templates, corr, t1, kind), t2);
  }
}
