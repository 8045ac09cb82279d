/** Page geometry of the screenshot capture: the primary slicer that scrolls the page in
    overlapping bands, the fallback that captures a few viewport-sized parts, and the
    vertical stacking that merges the images into one full-page picture. */
module Slicing {
  import opened Results
  import opened Decimal

  /** Default band height and overlap of the capture, in CSS pixels. */
  const SliceHeightDefault: int := 1400
  const SliceOverlapDefault: int := 120

  datatype Viewport = Viewport(width: nat, height: nat)

  /** The viewport used when the page reports none. */
  const DesktopViewport: Viewport := Viewport(1400, 900)

  /** One captured band: its 1-based number, its image file, and the rows `top..bottom`
      it stands for. */
  datatype Segment = Segment(index: nat, path: string, top: int, bottom: int)

  /** Pixel size of an image file. */
  datatype Size = Size(width: nat, height: nat)

  function Min(a: int, b: int): int {
    if a <= b then a else b
  }

  function Max(a: int, b: int): int {
    if a >= b then a else b
  }

  /** `run_dir / "segments" / name`. */
  function SegmentPath(runDir: string, name: string): string {
    runDir + "/segments/" + name
  }

  /** `f"segment_{index:04d}.png"`, the primary slicer's file names. */
  function PrimaryName(index: nat): string {
    "segment_" + ZeroPad(index, 4) + ".png"
  }

  /** `f"segment_{index:02d}.png"`, the fallback's file names. */
  function FallbackName(index: nat): string {
    "segment_" + ZeroPad(index, 2) + ".png"
  }

  /** `run_dir / "full_page.png"`, the merged picture. */
  function FullPagePath(runDir: string): string {
    runDir + "/full_page.png"
  }

  /** Different numbers give different file names. */
  lemma NamesDistinct(a: nat, b: nat, w: nat)
    requires a != b
    ensures "segment_" + ZeroPad(a, w) + ".png" != "segment_" + ZeroPad(b, w) + ".png"
  {
    var x, y := "segment_" + ZeroPad(a, w) + ".png", "segment_" + ZeroPad(b, w) + ".png";
    ZeroPadValue(a, w);
    ZeroPadValue(b, w);
    assert ZeroPad(a, w) == x[8..|x| - 4];
    assert ZeroPad(b, w) == y[8..|y| - 4];
  }

  // ---------------------------------------------------------------------------------------
  // Primary slicer

  /** The primary slicer's image file for band `index`: `run_dir/segments/segment_0001.png`, ... */
  function PrimaryPaths(runDir: string): nat -> string {
    (index: nat) => SegmentPath(runDir, PrimaryName(index))
  }

  /** The bands the primary slicer records from row `top` on, numbering from `index` and
      naming band `i`'s image `path(i)`: each starts `sh - ov` rows below the previous one,
      is `sh` rows tall, and is cut at the page end `total`. */
  function Slices(path: nat -> string, total: int, sh: int, ov: int, top: int, index: nat): seq<Segment>
    requires sh - ov >= 1
    decreases total - top
  {
    if top >= total then []
    else
      [Segment(index, path(index), top, top + Min(sh, total - top))]
      + Slices(path, total, sh, ov, top + (sh - ov), index + 1)
  }

  /** The whole primary slicing of a page `total` rows tall. */
  function PrimarySlices(runDir: string, total: int, sh: int, ov: int): seq<Segment>
    requires sh - ov >= 1
  {
    Slices(PrimaryPaths(runDir), total, sh, ov, 0, 1)
  }

  /** The loop of the primary capture: scroll to each band top, record the band, advance by
      `sh - ov`, stop once past the page end. Band `i`'s image is `path(i)`; the capture
      names them with `PrimaryPaths(runDir)`. */
  method SliceSegments(path: nat -> string, total: int, sh: int, ov: int) returns (segs: seq<Segment>)
    requires ov < sh
    ensures segs == Slices(path, total, sh, ov, 0, 1)
  {
    segs := [];
    var top := 0;
    var index: nat := 1;
    while top < total
      invariant segs + Slices(path, total, sh, ov, top, index) == Slices(path, total, sh, ov, 0, 1)
      decreases total - top
    {
      SlicesStep(path, total, sh, ov, top, index);
      var actual := Min(sh, total - top);
      var seg := Segment(index, path(index), top, top + actual);
      AppendAssoc(segs, [seg], Slices(path, total, sh, ov, top + (sh - ov), index + 1));
      segs := segs + [seg];
      top := top + (sh - ov);
      index := index + 1;
      if top >= total {
        break;
      }
    }
    assert Slices(path, total, sh, ov, top, index) == [];
    assert segs + [] == segs;
  }

  lemma AppendAssoc<T>(a: seq<T>, b: seq<T>, c: seq<T>)
    ensures (a + b) + c == a + (b + c)
  {
  }

  /** One step of the slicing: a page that goes on below `top` gets a band at `top`,
      followed by the slicing from `top + (sh - ov)`. */
  lemma SlicesStep(path: nat -> string, total: int, sh: int, ov: int, top: int, index: nat)
    requires sh - ov >= 1 && top < total
    ensures Slices(path, total, sh, ov, top, index)
         == [Segment(index, path(index), top, top + Min(sh, total - top))]
            + Slices(path, total, sh, ov, top + (sh - ov), index + 1)
  {
  }

  /** The slicing from `top` is empty exactly when `top` is past the page end; otherwise
      it starts at `top`, and one more step after its last band would be past the end. */
  lemma {:induction false} SlicesEnds(path: nat -> string, total: int, sh: int, ov: int, top: int, index: nat)
    requires sh - ov >= 1
    ensures var s := Slices(path, total, sh, ov, top, index);
      && (|s| == 0 <==> top >= total)
      && (s != [] ==> s[0].top == top && s[|s| - 1].top + (sh - ov) >= total)
    decreases total - top
  {
    if top < total {
      SlicesStep(path, total, sh, ov, top, index);
      SlicesEnds(path, total, sh, ov, top + (sh - ov), index + 1);
    }
  }

  /** Every band of the slicing from `top` is numbered and named by its position, starts
      above the page end, and runs `sh` rows or to the page end. */
  lemma {:induction false} SlicesFields(path: nat -> string, total: int, sh: int, ov: int, top: int, index: nat)
    requires sh - ov >= 1
    ensures var s := Slices(path, total, sh, ov, top, index);
      forall k :: 0 <= k < |s| ==>
        && s[k].index == index + k && s[k].path == path(index + k)
        && s[k].top < total && s[k].bottom == s[k].top + Min(sh, total - s[k].top)
    decreases total - top
  {
    if top < total {
      var s := Slices(path, total, sh, ov, top, index);
      var rest := Slices(path, total, sh, ov, top + (sh - ov), index + 1);
      SlicesStep(path, total, sh, ov, top, index);
      SlicesFields(path, total, sh, ov, top + (sh - ov), index + 1);
      assert forall k :: 1 <= k < |s| ==> s[k] == rest[k - 1];
    }
  }

  /** Neighbouring bands of the slicing start `sh - ov` rows apart. */
  lemma {:induction false} SlicesAdvance(path: nat -> string, total: int, sh: int, ov: int, top: int, index: nat)
    requires sh - ov >= 1
    ensures var s := Slices(path, total, sh, ov, top, index);
      forall k :: 0 <= k < |s| - 1 ==> s[k + 1].top == s[k].top + (sh - ov)
    decreases total - top
  {
    if top < total {
      var s := Slices(path, total, sh, ov, top, index);
      var rest := Slices(path, total, sh, ov, top + (sh - ov), index + 1);
      SlicesStep(path, total, sh, ov, top, index);
      SlicesAdvance(path, total, sh, ov, top + (sh - ov), index + 1);
      SlicesEnds(path, total, sh, ov, top + (sh - ov), index + 1);
      assert forall k :: 1 <= k < |s| ==> s[k] == rest[k - 1];
    }
  }

  /** A sequence of band tops that starts at `t0` and grows by `step` runs through
      `t0 + k * step`. */
  lemma {:induction false} TopsClosedForm(s: seq<Segment>, t0: int, step: int, k: nat)
    requires s != [] && s[0].top == t0 && k < |s|
    requires forall j :: 0 <= j < |s| - 1 ==> s[j + 1].top == s[j].top + step
    ensures s[k].top == t0 + k * step
  {
    if k > 0 {
      TopsClosedForm(s, t0, step, k - 1);
      assert s[k].top == s[k - 1].top + step;
    }
  }

  /** The slicing of a whole page is empty exactly when the page has no height; its bands
      are numbered 1, 2, ..., the `k`-th starts `k * (sh - ov)` rows down and each lies
      within the page. */
  lemma PrimarySlicesTops(runDir: string, total: int, sh: int, ov: int)
    requires 1 <= sh && ov < sh
    ensures var s := PrimarySlices(runDir, total, sh, ov);
      && (s == [] <==> total <= 0)
      && forall k :: 0 <= k < |s| ==>
           s[k].index == k + 1 && s[k].top == k * (sh - ov) && s[k].top < s[k].bottom <= total
  {
    var s := PrimarySlices(runDir, total, sh, ov);
    SlicesEnds(PrimaryPaths(runDir), total, sh, ov, 0, 1);
    SlicesFields(PrimaryPaths(runDir), total, sh, ov, 0, 1);
    SlicesAdvance(PrimaryPaths(runDir), total, sh, ov, 0, 1);
    forall k | 0 <= k < |s| ensures s[k].top == k * (sh - ov) {
      TopsClosedForm(s, 0, sh - ov, k);
    }
  }

  /** Neighbouring bands overlap by `ov` rows unless the page ends first, and the last band
      ends exactly at the page end. */
  lemma PrimarySlicesOverlap(runDir: string, total: int, sh: int, ov: int)
    requires 0 <= ov < sh
    ensures var s := PrimarySlices(runDir, total, sh, ov);
      && (forall k :: 0 <= k < |s| - 1 ==> s[k].bottom == Min(s[k + 1].top + ov, total))
      && (s != [] ==> s[|s| - 1].bottom == total)
  {
    SlicesEnds(PrimaryPaths(runDir), total, sh, ov, 0, 1);
    SlicesFields(PrimaryPaths(runDir), total, sh, ov, 0, 1);
    SlicesAdvance(PrimaryPaths(runDir), total, sh, ov, 0, 1);
  }

  /** Every row of the page lies in some band. */
  lemma PrimarySlicesCover(runDir: string, total: int, sh: int, ov: int)
    requires 0 <= ov < sh
    ensures var s := PrimarySlices(runDir, total, sh, ov);
      forall y :: 0 <= y < total ==> Covered(s, y)
  {
    var s := PrimarySlices(runDir, total, sh, ov);
    SlicesEnds(PrimaryPaths(runDir), total, sh, ov, 0, 1);
    SlicesFields(PrimaryPaths(runDir), total, sh, ov, 0, 1);
    SlicesAdvance(PrimaryPaths(runDir), total, sh, ov, 0, 1);
    forall y | 0 <= y < total ensures Covered(s, y) {
      CoveredBy(s, sh - ov, ov, total, y);
    }
  }

  /** A negative overlap leaves gaps: on a page taller than one step, row `sh`, the first row
      below the first band, lies in no band. */
  lemma PrimarySlicesGap(runDir: string, total: int, sh: int, ov: int)
    requires 1 <= sh && ov < 0 && total > sh - ov
    ensures !Covered(PrimarySlices(runDir, total, sh, ov), sh)
  {
    var s := PrimarySlices(runDir, total, sh, ov);
    PrimarySlicesTops(runDir, total, sh, ov);
    SlicesFields(PrimaryPaths(runDir), total, sh, ov, 0, 1);
    forall k | 0 <= k < |s| ensures !InBand(s[k], sh) {
      if k == 0 {
        assert s[0].bottom <= sh;
      } else {
        MulAtLeast(k, sh - ov);
      }
    }
  }

  lemma MulAtLeast(k: int, d: int)
    requires k >= 1 && d >= 1
    ensures k * d >= d
  {
    assert k * d == (k - 1) * d + d;
  }

  /** Row `y` lies in one of the bands. */
  predicate Covered(s: seq<Segment>, y: int) {
    exists k :: 0 <= k < |s| && InBand(s[k], y)
  }

  predicate InBand(g: Segment, y: int) {
    g.top <= y < g.bottom
  }

  /** Bands that follow each other at `step` rows, each at least `step` rows tall or
      reaching the page end, cover every row from the first top to the page end. */
  lemma {:induction false} CoveredBy(s: seq<Segment>, step: int, ov: int, total: int, y: int)
    requires step >= 1 && ov >= 0 && s != [] && s[0].top <= y < total
    requires s[|s| - 1].top + step >= total
    requires forall k :: 0 <= k < |s| ==> s[k].bottom == s[k].top + Min(step + ov, total - s[k].top)
    requires forall k :: 0 <= k < |s| - 1 ==> s[k + 1].top == s[k].top + step
    ensures Covered(s, y)
    decreases |s|
  {
    if y < s[0].top + step || |s| == 1 {
      assert InBand(s[0], y);
    } else {
      var t := s[1..];
      assert t[0].top == s[0].top + step;
      CoveredBy(t, step, ov, total, y);
      var k :| 0 <= k < |t| && InBand(t[k], y);
      assert InBand(s[k + 1], y);
    }
  }

  /** The default geometry on a page 3000 rows tall gives three bands: 0-1400, 1280-2680 and
      2560-3000. */
  lemma DefaultSlicesOf3000(runDir: string)
    ensures var s := PrimarySlices(runDir, 3000, SliceHeightDefault, SliceOverlapDefault);
      |s| == 3 && s[0].top == 0 && s[0].bottom == 1400 && s[1].top == 1280 && s[1].bottom == 2680
      && s[2].top == 2560 && s[2].bottom == 3000
  {
    SlicesEnds(PrimaryPaths(runDir), 3000, 1400, 120, 0, 1);
    PrimarySlicesTops(runDir, 3000, 1400, 120);
  }

  // ---------------------------------------------------------------------------------------
  // Fallback capture

  /** One fallback screenshot: its image file, the scroll position it was taken at, and the
      height of the clip (the image's height). */
  datatype Shot = Shot(path: string, scrollTop: int, height: int)

  const FallbackFailedMessage: string := "フォールバック用のスクリーンショット取得に失敗しました。"

  /** `math.ceil(a / b)` for a positive `b`: the least `r` with `a <= r * b`. */
  function CeilDiv(a: int, b: int): (r: int)
    requires b > 0
    ensures (r - 1) * b < a <= r * b
  {
    var q := (-a) / b;
    assert -a == b * q + (-a) % b;
    -q
  }

  /** `(page.viewport_size or DESKTOP_VIEWPORT)["height"] or 1`. Heights are `nat` here: a
      negative viewport height, which Python's `or 1` would keep, is not modelled. */
  function ViewportHeight(vp: Option<Viewport>): (h: nat)
    ensures h >= 1
  {
    var height := vp.GetOr(DesktopViewport).height;
    if height == 0 then 1 else height
  }

  /** The number of parts the fallback plans: at least one, at least `parts` when given, and
      at least as many viewport heights as the page is tall. */
  function RequiredParts(total: int, vh: nat, parts: Option<int>): int
    requires vh >= 1
  {
    var fit := CeilDiv(total, vh);
    Max(1, match parts case None => fit case Some(p) => Max(p, fit))
  }

  /** `max(total // parts, vh)`: the planned distance between two scroll positions. */
  function FallbackStep(total: int, count: int, vh: nat): int
    requires count >= 1
  {
    Max(total / count, vh)
  }

  /** The image file of fallback part `i` (0-based): `run_dir/segments/segment_01.png`, ... */
  function FallbackPaths(runDir: string): nat -> string {
    (i: nat) => SegmentPath(runDir, FallbackName(i + 1))
  }

  /** Part `i` of the plan: scrolled to `i * step` but never below the last full viewport,
      clipped to the viewport or to what is left of the page. */
  function ShotAt(path: nat -> string, total: int, vh: nat, step: int, i: nat): Shot {
    var top := Min(i * step, Max(0, total - vh));
    Shot(path(i), top, Min(vh, total - top))
  }

  /** The parts the fallback captures from part `i` on: it stops at `count` parts or at the
      first part with nothing left to clip. */
  function FallbackShots(path: nat -> string, total: int, vh: nat, step: int, count: int, i: nat): seq<Shot>
    decreases count - i
  {
    if i >= count then []
    else
      var shot := ShotAt(path, total, vh, step, i);
      if shot.height <= 0 then [] else [shot] + FallbackShots(path, total, vh, step, count, i + 1)
  }

  /** Every part the fallback of a page `total` rows tall captures, for the viewport `vp` and
      the requested number of parts. */
  function FallbackPlan(runDir: string, total: int, vp: Option<Viewport>, parts: Option<int>): seq<Shot> {
    PlannedShots(FallbackPaths(runDir), total, vp, parts)
  }

  /** The same parts, with part `i`'s image named `path(i)`. */
  function PlannedShots(path: nat -> string, total: int, vp: Option<Viewport>, parts: Option<int>): seq<Shot> {
    var vh := ViewportHeight(vp);
    var count := RequiredParts(total, vh, parts);
    FallbackShots(path, total, vh, FallbackStep(total, count, vh), count, 0)
  }

  /** The loop of the fallback capture: scroll, clip, screenshot, part after part; an error
      when not a single part could be clipped. Part `i`'s image is `path(i)`; the capture
      names them with `FallbackPaths(runDir)`. */
  method CaptureFallbackSegments(path: nat -> string, total: int, vp: Option<Viewport>, parts: Option<int>)
    returns (r: Result<seq<Shot>, string>)
    ensures var plan := PlannedShots(path, total, vp, parts);
      r == if plan == [] then Failure(FallbackFailedMessage) else Success(plan)
  {
    var vh := ViewportHeight(vp);
    var requiredParts := match parts case None => CeilDiv(total, vh) case Some(p) => Max(p, CeilDiv(total, vh));
    requiredParts := Max(1, requiredParts);
    var step := Max(total / requiredParts, vh);
    var shots: seq<Shot> := [];
    var index: nat := 0;
    while index < requiredParts
      invariant shots + FallbackShots(path, total, vh, step, requiredParts, index)
             == FallbackShots(path, total, vh, step, requiredParts, 0)
      decreases requiredParts - index
    {
      var scrollTop := Min(index * step, Max(0, total - vh));
      var clipHeight := Min(vh, total - scrollTop);
      var shot := Shot(path(index), scrollTop, clipHeight);
      assert shot == ShotAt(path, total, vh, step, index);
      FallbackShotsStep(path, total, vh, step, requiredParts, index);
      if clipHeight <= 0 {
        assert shots + [] == shots;
        break;
      }
      AppendAssoc(shots, [shot], FallbackShots(path, total, vh, step, requiredParts, index + 1));
      shots := shots + [shot];
      index := index + 1;
    }
    if index >= requiredParts {
      assert shots + [] == shots;
    }
    assert shots == FallbackShots(path, total, vh, step, requiredParts, 0);
    FallbackPlanUnfold(path, total, vp, parts, requiredParts, step);
    if shots == [] {
      r := Failure(FallbackFailedMessage);
    } else {
      r := Success(shots);
    }
  }

  lemma FallbackPlanUnfold(path: nat -> string, total: int, vp: Option<Viewport>, parts: Option<int>, count: int, step: int)
    requires count == Max(1, match parts case None => CeilDiv(total, ViewportHeight(vp)) case Some(p) => Max(p, CeilDiv(total, ViewportHeight(vp))))
    requires step == Max(total / count, ViewportHeight(vp))
    ensures PlannedShots(path, total, vp, parts) == FallbackShots(path, total, ViewportHeight(vp), step, count, 0)
  {
  }

  lemma FallbackShotsStep(path: nat -> string, total: int, vh: nat, step: int, count: int, i: nat)
    requires i < count
    ensures var shot := ShotAt(path, total, vh, step, i);
      FallbackShots(path, total, vh, step, count, i)
      == if shot.height <= 0 then [] else [shot] + FallbackShots(path, total, vh, step, count, i + 1)
  {
  }

  /** On a page with some height every planned part has something to clip: the clip is the
      whole viewport, or the whole page when it is shorter than the viewport. */
  lemma ShotHeightPositive(path: nat -> string, total: int, vh: nat, step: int, i: nat)
    requires total > 0 && vh >= 1 && step >= 0
    ensures var shot := ShotAt(path, total, vh, step, i);
      0 <= shot.scrollTop && 0 < shot.height && shot.height == Min(vh, total) && shot.scrollTop + shot.height <= total
  {
    assert i * step >= 0;
  }

  /** On a page with some height the fallback captures every planned part. */
  lemma {:induction false} FallbackShotsAll(path: nat -> string, total: int, vh: nat, step: int, count: int, i: nat)
    requires total > 0 && vh >= 1 && step >= 0 && i <= count
    ensures var s := FallbackShots(path, total, vh, step, count, i);
      |s| == count - i && forall k :: 0 <= k < |s| ==> s[k] == ShotAt(path, total, vh, step, i + k)
    decreases count - i
  {
    if i < count {
      ShotHeightPositive(path, total, vh, step, i);
      FallbackShotsAll(path, total, vh, step, count, i + 1);
      var s := FallbackShots(path, total, vh, step, count, i);
      var rest := FallbackShots(path, total, vh, step, count, i + 1);
      assert s == [ShotAt(path, total, vh, step, i)] + rest;
      assert forall k :: 1 <= k < |s| ==> s[k] == rest[k - 1];
    }
  }

  /** The plan has at least as many parts as viewport heights fit in the page. */
  lemma PartsFillPage(total: int, vh: nat, parts: Option<int>)
    requires vh >= 1
    ensures RequiredParts(total, vh, parts) * vh >= total
  {
    var count := RequiredParts(total, vh, parts);
    var fit := CeilDiv(total, vh);
    assert count * vh >= fit * vh;
  }

  /** Hence the planned step never exceeds the viewport: on a page with some height it is
      the viewport height. */
  lemma StepIsViewport(total: int, vh: nat, parts: Option<int>)
    requires total > 0 && vh >= 1
    ensures FallbackStep(total, RequiredParts(total, vh, parts), vh) == vh
  {
    var count := RequiredParts(total, vh, parts);
    PartsFillPage(total, vh, parts);
    FloorBelow(total, count, vh);
  }

  lemma FloorBelow(total: int, count: int, vh: int)
    requires count >= 1 && count * vh >= total
    ensures total / count <= vh
  {
    var q := total / count;
    assert q * count <= total;
  }

  /** The fallback of a page with some height captures exactly the planned number of parts,
      one viewport apart (clamped so the last one ends at the page end), each within the
      page. */
  lemma FallbackPlanShape(runDir: string, total: int, vp: Option<Viewport>, parts: Option<int>)
    requires total > 0
    ensures var plan := FallbackPlan(runDir, total, vp, parts);
      var vh := ViewportHeight(vp);
      && |plan| == RequiredParts(total, vh, parts)
      && forall k :: 0 <= k < |plan| ==>
           && plan[k].path == SegmentPath(runDir, FallbackName(k + 1))
           && plan[k].scrollTop == Min(k * vh, total - Min(vh, total))
           && plan[k].height == Min(vh, total)
           && 0 <= plan[k].scrollTop && plan[k].scrollTop + plan[k].height <= total
  {
    var vh := ViewportHeight(vp);
    var count := RequiredParts(total, vh, parts);
    var path := FallbackPaths(runDir);
    var step := FallbackStep(total, count, vh);
    StepIsViewport(total, vh, parts);
    FallbackShotsAll(path, total, vh, step, count, 0);
    var plan := FallbackPlan(runDir, total, vp, parts);
    forall k | 0 <= k < |plan|
      ensures plan[k].scrollTop == Min(k * vh, total - Min(vh, total))
              && plan[k].height == Min(vh, total)
              && 0 <= plan[k].scrollTop && plan[k].scrollTop + plan[k].height <= total
    {
      ShotHeightPositive(path, total, vh, step, k);
    }
  }

  /** A page with no height gets no fallback part at all. */
  lemma FallbackPlanEmpty(runDir: string, total: int, vp: Option<Viewport>, parts: Option<int>)
    requires total <= 0
    ensures FallbackPlan(runDir, total, vp, parts) == []
  {
    var vh := ViewportHeight(vp);
    var count := RequiredParts(total, vh, parts);
    FallbackShotsStep(FallbackPaths(runDir), total, vh, FallbackStep(total, count, vh), count, 0);
  }

  /** Row `y` of the page is in the clip of some fallback part. */
  predicate ShotCovers(plan: seq<Shot>, y: int) {
    exists k :: 0 <= k < |plan| && plan[k].scrollTop <= y < plan[k].scrollTop + plan[k].height
  }

  /** The fallback parts of a page with some height together show every row of it. */
  lemma FallbackPlanCovers(runDir: string, total: int, vp: Option<Viewport>, parts: Option<int>, y: int)
    requires 0 <= y < total
    ensures ShotCovers(FallbackPlan(runDir, total, vp, parts), y)
  {
    var plan := FallbackPlan(runDir, total, vp, parts);
    var vh := ViewportHeight(vp);
    FallbackPlanShape(runDir, total, vp, parts);
    PartsFillPage(total, vh, parts);
    var k := ViewportIndex(y, vh, RequiredParts(total, vh, parts));
    ShotAtRow(plan[k], k * vh, vh, total, y);
  }

  /** The viewport-sized band of the page that row `y` falls in. */
  lemma ViewportIndex(y: int, vh: nat, count: int) returns (k: nat)
    requires 0 <= y && vh >= 1 && y < count * vh
    ensures k < count && k * vh <= y < k * vh + vh
  {
    k := y / vh;
  }

  lemma ShotAtRow(shot: Shot, m: int, vh: nat, total: int, y: int)
    requires 0 <= m <= y < m + vh && y < total
    requires shot.scrollTop == Min(m, total - Min(vh, total)) && shot.height == Min(vh, total)
    ensures shot.scrollTop <= y < shot.scrollTop + shot.height
  {
  }

  // ---------------------------------------------------------------------------------------
  // Stacking images

  /** `sum(xs)`. */
  function Sum(xs: seq<int>): int {
    if xs == [] then 0 else Sum(xs[..|xs| - 1]) + xs[|xs| - 1]
  }

  lemma SumPrefixStep(xs: seq<int>, i: nat)
    requires i < |xs|
    ensures Sum(xs[..i + 1]) == Sum(xs[..i]) + xs[i]
  {
    assert xs[..i + 1][..i] == xs[..i];
  }

  /** Sums of non-negative numbers grow with the prefix. */
  lemma {:induction false} SumPrefixBound(xs: seq<int>, i: nat)
    requires i <= |xs| && forall k :: 0 <= k < |xs| ==> xs[k] >= 0
    ensures 0 <= Sum(xs[..i]) <= Sum(xs)
    decreases |xs| - i
  {
    if i < |xs| {
      SumPrefixBound(xs, i + 1);
      SumPrefixStep(xs, i);
      SumPrefixNonNegative(xs[..i]);
    } else {
      assert xs[..i] == xs;
      SumPrefixNonNegative(xs);
    }
  }

  lemma {:induction false} SumPrefixNonNegative(xs: seq<int>)
    requires forall k :: 0 <= k < |xs| ==> xs[k] >= 0
    ensures Sum(xs) >= 0
  {
    if xs != [] {
      SumPrefixNonNegative(xs[..|xs| - 1]);
    }
  }

  function ShotHeights(shots: seq<Shot>): (hs: seq<int>)
    ensures |hs| == |shots| && forall i :: 0 <= i < |shots| ==> hs[i] == shots[i].height
  {
    seq(|shots|, i requires 0 <= i < |shots| => shots[i].height)
  }

  /** The record the fallback keeps of its parts: numbered from 1, each standing for the rows
      of the merged picture its image occupies once the images are stacked in order. */
  function StackedMeta(shots: seq<Shot>): (segs: seq<Segment>)
    ensures |segs| == |shots|
  {
    var hs := ShotHeights(shots);
    seq(|shots|, i requires 0 <= i < |shots| => Segment(i + 1, shots[i].path, Sum(hs[..i]), Sum(hs[..i]) + hs[i]))
  }

  /** The loop that numbers the fallback images and stacks their heights. */
  method StackFallbackMeta(shots: seq<Shot>) returns (segs: seq<Segment>)
    ensures segs == StackedMeta(shots)
  {
    ghost var hs := ShotHeights(shots);
    segs := [];
    var offset := 0;
    var idx := 0;
    while idx < |shots|
      invariant 0 <= idx <= |shots| && |segs| == idx && offset == Sum(hs[..idx])
      invariant forall i :: 0 <= i < idx ==> segs[i] == StackedMeta(shots)[i]
    {
      var height := shots[idx].height;
      segs := segs + [Segment(idx + 1, shots[idx].path, offset, offset + height)];
      SumPrefixStep(hs, idx);
      offset := offset + height;
      idx := idx + 1;
    }
  }

  /** Stacked records tile the merged picture: the first starts at row 0, each ends where the
      next begins, and the last ends at the sum of the image heights. */
  lemma StackedMetaTiles(shots: seq<Shot>)
    ensures var segs := StackedMeta(shots);
      && (segs != [] ==> segs[0].top == 0 && segs[|segs| - 1].bottom == Sum(ShotHeights(shots)))
      && (forall i :: 0 <= i < |segs| ==> segs[i].index == i + 1 && segs[i].bottom - segs[i].top == shots[i].height)
      && (forall i :: 0 <= i < |segs| - 1 ==> segs[i].bottom == segs[i + 1].top)
  {
    var segs := StackedMeta(shots);
    var hs := ShotHeights(shots);
    forall i | 0 <= i < |segs| - 1 ensures segs[i].bottom == segs[i + 1].top {
      SumPrefixStep(hs, i);
    }
    if segs != [] {
      SumPrefixStep(hs, |hs| - 1);
      assert hs[..|hs|] == hs;
      assert hs[..0] == [];
    }
  }
}
