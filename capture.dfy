/** The screenshot capture of one page: the primary slicer, the merge of its images into
    one full-page picture, and the fallback taken when either of them raises. */
module Capture {
  import opened Results
  import opened Slicing

  // ---------------------------------------------------------------------------------------
  // Merging images

  /** Where the merge puts the images: the canvas size and each image's top row. */
  datatype Layout = Layout(width: nat, height: nat, offsets: seq<int>)

  /** Python's message for `max()` over nothing. */
  const EmptyMergeMessage: string := "max() arg is an empty sequence"

  /** The widest of the images. */
  function MaxWidth(images: seq<Size>): nat
    requires images != []
  {
    if |images| == 1 then images[0].width
    else
      var rest := MaxWidth(images[1..]);
      if images[0].width >= rest then images[0].width else rest
  }

  function Heights(images: seq<Size>): (hs: seq<int>)
    ensures |hs| == |images| && forall i :: 0 <= i < |images| ==> hs[i] == images[i].height
  {
    seq(|images|, i requires 0 <= i < |images| => images[i].height as int)
  }

  /** The canvas is as wide as the widest image and no wider. */
  lemma {:induction false} MaxWidthIsMaximum(images: seq<Size>)
    requires images != []
    ensures forall i :: 0 <= i < |images| ==> images[i].width <= MaxWidth(images)
    ensures exists i :: 0 <= i < |images| && images[i].width == MaxWidth(images)
  {
    if |images| > 1 {
      var rest := images[1..];
      MaxWidthIsMaximum(rest);
      assert forall i :: 1 <= i < |images| ==> images[i] == rest[i - 1];
      var j :| 0 <= j < |rest| && rest[j].width == MaxWidth(rest);
      assert images[j + 1].width == MaxWidth(rest);
    } else {
      assert images[0].width == MaxWidth(images);
    }
  }

  /** `merge_segment_images`: a white canvas as wide as the widest image and as tall as all of
      them together, each image pasted below the previous one; `max()` over no image raises. */
  method MergeLayout(images: seq<Size>) returns (r: Result<Layout, string>)
    ensures r.Failure? <==> images == []
    ensures r.Success? ==>
      && r.value.width == MaxWidth(images)
      && r.value.height == Sum(Heights(images))
      && |r.value.offsets| == |images|
      && forall i :: 0 <= i < |images| ==> r.value.offsets[i] == Sum(Heights(images)[..i])
  {
    if |images| == 0 {
      return Failure(EmptyMergeMessage);
    }
    var width := images[|images| - 1].width;
    var j := |images| - 1;
    while j > 0
      invariant 0 <= j < |images| && width == MaxWidth(images[j..])
    {
      j := j - 1;
      assert images[j..][1..] == images[j + 1..];
      width := if images[j].width >= width then images[j].width else width;
    }
    assert images[0..] == images;
    ghost var hs := Heights(images);
    var totalHeight: nat := 0;
    var offsets: seq<int> := [];
    var currentY := 0;
    var k := 0;
    while k < |images|
      invariant 0 <= k <= |images| && |offsets| == k && currentY == Sum(hs[..k]) && totalHeight == currentY
      invariant forall i :: 0 <= i < k ==> offsets[i] == Sum(hs[..i])
    {
      offsets := offsets + [currentY];
      SumPrefixStep(hs, k);
      currentY := currentY + images[k].height;
      totalHeight := totalHeight + images[k].height;
      k := k + 1;
    }
    assert hs[..k] == hs;
    return Success(Layout(width, totalHeight, offsets));
  }

  /** The pasted images tile the canvas: the first at row 0, each directly below the previous
      one, every one within the canvas, the last one ending at its bottom edge. */
  lemma LayoutTiles(images: seq<Size>)
    requires images != []
    ensures var hs := Heights(images);
      && Sum(hs[..0]) == 0
      && (forall i :: 0 <= i < |images| - 1 ==> Sum(hs[..i]) + images[i].height == Sum(hs[..i + 1]))
      && (forall i :: 0 <= i < |images| ==> 0 <= Sum(hs[..i]) && Sum(hs[..i]) + images[i].height <= Sum(hs))
      && Sum(hs[..|images| - 1]) + images[|images| - 1].height == Sum(hs)
  {
    var hs := Heights(images);
    assert hs[..0] == [];
    forall i | 0 <= i < |images| ensures 0 <= Sum(hs[..i]) && Sum(hs[..i]) + images[i].height <= Sum(hs) && Sum(hs[..i]) + images[i].height == Sum(hs[..i + 1]) {
      SumPrefixStep(hs, i);
      SumPrefixBound(hs, i);
      SumPrefixBound(hs, i + 1);
    }
    assert hs[..|images|] == hs;
  }

  // ---------------------------------------------------------------------------------------
  // The capture

  /** An exception a page call raised while slicing, and whether the viewport had already
      been resized to the band height when it did. */
  datatype PageError = PageError(message: string, afterResize: bool)

  /** What the capture sees of the page: its scroll height, its viewport, and the exceptions
      its calls raise in the primary slicer and in the fallback. */
  datatype PageModel = PageModel(
    scrollHeight: int,
    viewport: Option<Viewport>,
    primaryError: Option<PageError>,
    fallbackError: Option<string>)

  /** The merged picture and the record of its bands. */
  datatype Shots = Shots(screenshot: string, segments: seq<Segment>)

  /** Python's message for reading `screenshot_path` before it is bound. */
  const UnboundPathMessage: string := "cannot access local variable 'screenshot_path' where it is not associated with a value"

  /** The viewport in force when the fallback starts: the one the slicer resized to the band
      height if it failed after resizing, otherwise the one it started with (restored when
      the slicer completed). */
  function FallbackViewport(page: PageModel, sh: nat): Option<Viewport> {
    var vp := page.viewport.GetOr(DesktopViewport);
    match page.primaryError
    case Some(e) => if e.afterResize then Some(Viewport(vp.width, sh)) else page.viewport
    case None => Some(vp)
  }

  /** The primary slicer's images: viewport screenshots, as wide as the viewport and as tall
      as a band. */
  function PrimaryImages(page: PageModel, n: nat, sh: nat): seq<Size> {
    seq(n, _ => Size(page.viewport.GetOr(DesktopViewport).width, sh))
  }

  /** The fallback with two parts requested: its record of the parts, or what it raises. */
  function FallbackRecord(page: PageModel, runDir: string, sh: nat): Result<seq<Segment>, string> {
    if page.fallbackError.Some? then Failure(page.fallbackError.value)
    else
      var plan := FallbackPlan(runDir, page.scrollHeight, FallbackViewport(page, sh), Some(2));
      if plan == [] then Failure(FallbackFailedMessage) else Success(StackedMeta(plan))
  }

  /** `capture_page_screenshots` as written: `screenshot_path` is bound only after the slicer
      finished, so when the slicer itself raised, the fallback's `return` raises in turn. */
  function CaptureAsWritten(page: PageModel, runDir: string, sh: int, ov: int): Result<Shots, string>
    requires 1 <= sh && ov < sh
  {
    var segs := PrimarySlices(runDir, page.scrollHeight, sh, ov);
    if page.primaryError.None? && segs != [] then Success(Shots(FullPagePath(runDir), segs))
    else
      match FallbackRecord(page, runDir, sh)
      case Failure(e) => Failure(e)
      case Success(meta) =>
        if page.primaryError.Some? then Failure(UnboundPathMessage) else Success(Shots(FullPagePath(runDir), meta))
  }

  /** `capture_page_screenshots` with the merged picture's path bound before the slicer runs:
      the slicer's bands when it and the merge succeed, otherwise the fallback's parts. */
  function CaptureSpec(page: PageModel, runDir: string, sh: int, ov: int): Result<Shots, string>
    requires 1 <= sh && ov < sh
  {
    var segs := PrimarySlices(runDir, page.scrollHeight, sh, ov);
    if page.primaryError.None? && segs != [] then Success(Shots(FullPagePath(runDir), segs))
    else
      match FallbackRecord(page, runDir, sh)
      case Failure(e) => Failure(e)
      case Success(meta) => Success(Shots(FullPagePath(runDir), meta))
  }

  /** The capture: slice, merge, and on any exception fall back to two viewport parts
      stacked in order. */
  method CapturePageScreenshots(page: PageModel, runDir: string, sh: int, ov: int) returns (r: Result<Shots, string>)
    requires 1 <= sh && ov < sh
    ensures r == CaptureSpec(page, runDir, sh, ov)
  {
    var screenshotPath := FullPagePath(runDir);
    var primaryFailed := page.primaryError.Some?;
    if !primaryFailed {
      var segs := SliceSegments(PrimaryPaths(runDir), page.scrollHeight, sh, ov);
      var merged := MergeLayout(PrimaryImages(page, |segs|, sh));
      if merged.Success? {
        return Success(Shots(screenshotPath, segs));
      }
    }
    if page.fallbackError.Some? {
      return Failure(page.fallbackError.value);
    }
    var parts := CaptureFallbackSegments(FallbackPaths(runDir), page.scrollHeight, FallbackViewport(page, sh), Some(2));
    if parts.Failure? {
      return Failure(parts.error);
    }
    var meta := StackFallbackMeta(parts.value);
    return Success(Shots(screenshotPath, meta));
  }

  /** As written, the capture succeeds exactly when the slicer raised nothing and the page
      has some height: a page with no height leaves the merge and then the fallback without
      an image, and a slicer exception is never recovered from. */
  lemma AsWrittenSucceedsIff(page: PageModel, runDir: string, sh: int, ov: int)
    requires 1 <= sh && ov < sh
    ensures CaptureAsWritten(page, runDir, sh, ov).Success? <==> page.primaryError.None? && page.scrollHeight > 0
  {
    PrimarySlicesTops(runDir, page.scrollHeight, sh, ov);
    if page.scrollHeight <= 0 {
      FallbackPlanEmpty(runDir, page.scrollHeight, FallbackViewport(page, sh), Some(2));
    }
  }

  /** With the path bound first, the fallback recovers from a slicer exception: the capture
      succeeds whenever the page has some height and one of the two ways raised nothing. */
  lemma CaptureSucceedsIff(page: PageModel, runDir: string, sh: int, ov: int)
    requires 1 <= sh && ov < sh
    ensures CaptureSpec(page, runDir, sh, ov).Success?
        <==> page.scrollHeight > 0 && (page.primaryError.None? || page.fallbackError.None?)
  {
    PrimarySlicesTops(runDir, page.scrollHeight, sh, ov);
    var vp := FallbackViewport(page, sh);
    if page.scrollHeight <= 0 {
      FallbackPlanEmpty(runDir, page.scrollHeight, vp, Some(2));
    } else {
      FallbackPlanShape(runDir, page.scrollHeight, vp, Some(2));
    }
  }

  /** After a slicer exception on a page with some height, the capture keeps the fallback's
      parts: at least two of them, numbered from 1 and stacked without gaps. */
  lemma FallbackRecovers(page: PageModel, runDir: string, sh: int, ov: int)
    requires 1 <= sh && ov < sh && page.scrollHeight > 0 && page.primaryError.Some? && page.fallbackError.None?
    ensures var r := CaptureSpec(page, runDir, sh, ov);
      var plan := FallbackPlan(runDir, page.scrollHeight, FallbackViewport(page, sh), Some(2));
      && r.Success? && r.value.segments == StackedMeta(plan) && |r.value.segments| >= 2
      && r.value.segments[0].top == 0
      && forall i :: 0 <= i < |r.value.segments| - 1 ==> r.value.segments[i].bottom == r.value.segments[i + 1].top
  {
    var vp := FallbackViewport(page, sh);
    var plan := FallbackPlan(runDir, page.scrollHeight, vp, Some(2));
    FallbackPlanShape(runDir, page.scrollHeight, vp, Some(2));
    StackedMetaTiles(plan);
  }

  /** The defect on a concrete page: 3000 rows tall, a 900-row viewport, the slicer's
      screenshot raising after the resize. As written the capture fails; with the path bound
      first it keeps the fallback's 3 parts (3000 / 1400 rounds up to 3). */
  lemma SlicerErrorExample(runDir: string)
    ensures var page := PageModel(3000, Some(Viewport(1400, 900)), Some(PageError("Timeout", true)), None);
      && CaptureAsWritten(page, runDir, 1400, 120) == Failure(UnboundPathMessage)
      && CaptureSpec(page, runDir, 1400, 120).Success?
      && |CaptureSpec(page, runDir, 1400, 120).value.segments| == 3
  {
    var page := PageModel(3000, Some(Viewport(1400, 900)), Some(PageError("Timeout", true)), None);
    var vp := FallbackViewport(page, 1400);
    assert vp == Some(Viewport(1400, 1400));
    assert RequiredParts(3000, 1400, Some(2)) == 3;
    FallbackPlanShape(runDir, 3000, vp, Some(2));
  }

  /** The fallback's record is in merged-picture rows, not page rows: on a page 1000 rows
      tall with a 900-row viewport the two parts overlap on the page (rows 100 to 900), yet the
      record stacks them as rows 0-900 and 900-1800, past the page end. */
  lemma FallbackRecordIsStacked(runDir: string)
    ensures var plan := FallbackPlan(runDir, 1000, Some(Viewport(1400, 900)), Some(2));
      var meta := StackedMeta(plan);
      && |plan| == 2 && plan[0].scrollTop == 0 && plan[1].scrollTop == 100
      && meta[0].top == 0 && meta[0].bottom == 900 && meta[1].top == 900 && meta[1].bottom == 1800
  {
    var plan := FallbackPlan(runDir, 1000, Some(Viewport(1400, 900)), Some(2));
    assert RequiredParts(1000, 900, Some(2)) == 2;
    FallbackPlanShape(runDir, 1000, Some(Viewport(1400, 900)), Some(2));
    StackedMetaTiles(plan);
  }

  /** The fallback's record and the merge agree: each image is pasted at the top row the
      record gives it. */
  lemma StackedMetaMatchesMerge(shots: seq<Shot>, width: nat)
    requires forall i :: 0 <= i < |shots| ==> shots[i].height >= 0
    ensures var images := seq(|shots|, i requires 0 <= i < |shots| => Size(width, shots[i].height as nat));
      forall i :: 0 <= i < |shots| ==> StackedMeta(shots)[i].top == Sum(Heights(images)[..i])
  {
    var images := seq(|shots|, i requires 0 <= i < |shots| => Size(width, shots[i].height as nat));
    assert Heights(images) == ShotHeights(shots);
  }
}
