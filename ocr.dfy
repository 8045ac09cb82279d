/** The OCR stage: every band image is sent to Gemini on a pool of worker threads, the reply
    text is stripped and cleaned, and the results are put back in band order. */
module Ocr {
  import opened Results
  import opened Strings
  import opened Sorting
  import opened Slicing
  import opened Page
  import opened Stitch

  /** What one call to the Gemini model gives: a reply (which may hold no response object),
      or an exception raised anywhere inside the call. */
  datatype GeminiReply = Reply(response: Option<Response>) | CallFailed

  /** `run_gemini_ocr`: "" when Gemini is not configured or the call raised; otherwise the
      stripped text of the reply. The text never starts or ends with white space. */
  function RunGeminiOcr(available: bool, reply: GeminiReply): (r: string)
    ensures Strip(r) == r
    ensures !available || reply.CallFailed? ==> r == ""
    ensures available && reply.Reply? ==> r == Strip(ExtractText(reply.response))
  {
    if !available then ""
    else match reply
      case CallFailed => ""
      case Reply(resp) =>
        StripIdempotent(ExtractText(resp));
        Strip(ExtractText(resp))
  }

  /** The OCR record of one band. */
  datatype OcrResult = OcrResult(index: nat, path: string, top: int, bottom: int,
                                 rawText: string, cleanText: string)

  /** The record of a band that was not sent to Gemini. */
  function Skipped(seg: Segment): OcrResult {
    OcrResult(seg.index, seg.path, seg.top, seg.bottom, "", "")
  }

  /** `process_single_segment` for a band and the reply its call got: the stripped OCR text
      and its cleaned form, next to the band's own fields. */
  function ProcessSegment(seg: Segment, reply: GeminiReply, wordChar: char -> bool): OcrResult {
    var raw := Strip(RunGeminiOcr(true, reply));
    OcrResult(seg.index, seg.path, seg.top, seg.bottom, raw, CleanText(raw, wordChar))
  }

  /** `f` applied to each element, in order. */
  function MapSeq<T, U>(f: T -> U, xs: seq<T>): (r: seq<U>)
    ensures |r| == |xs|
  {
    if xs == [] then [] else MapSeq(f, xs[..|xs| - 1]) + [f(xs[|xs| - 1])]
  }

  /** The records of the bands in the order given; the call for a band gets the reply
      `reply` gives for it. */
  function Processed(reply: Segment -> GeminiReply, segs: seq<Segment>, wordChar: char -> bool): seq<OcrResult> {
    MapSeq((seg: Segment) => ProcessSegment(seg, reply(seg), wordChar), segs)
  }

  /** The order `results.sort(key=lambda x: x["index"])` sorts by. */
  function ByIndex(): (OcrResult, OcrResult) -> bool {
    (a: OcrResult, b: OcrResult) => a.index <= b.index
  }

  function IndexOf(r: OcrResult): int {
    r.index
  }

  /** `run_ocr_on_segments`. Without Gemini every band gets an empty record, in band order.
      Otherwise the bands are processed by the thread pool; `order` is the order in which
      their calls complete (`as_completed`), a rearrangement of the bands, in which the
      records are collected before they are sorted stably by band number. */
  method RunOcrOnSegments(segs: seq<Segment>, available: bool, reply: Segment -> GeminiReply,
                          order: seq<Segment>, wordChar: char -> bool)
    returns (results: seq<OcrResult>)
    requires multiset(order) == multiset(segs)
    ensures !available ==> results == MapSeq(Skipped, segs)
    ensures available ==> results == SortBy(Processed(reply, order, wordChar), ByIndex())
  {
    if !available {
      results := SkipAll(segs);
    } else {
      var completed := CollectInOrder(reply, order, wordChar);
      results := SortBy(completed, ByIndex());
    }
  }

  /** The loop that gives every band an empty record. */
  method SkipAll(segs: seq<Segment>) returns (results: seq<OcrResult>)
    ensures results == MapSeq(Skipped, segs)
  {
    results := [];
    var i := 0;
    while i < |segs|
      invariant 0 <= i <= |segs| && results == MapSeq(Skipped, segs[..i])
    {
      MapSeqStep(Skipped, segs, i);
      results := results + [Skipped(segs[i])];
      i := i + 1;
    }
    assert segs[..|segs|] == segs;
  }

  /** The `as_completed` loop: the records in the order their calls complete. */
  method CollectInOrder(reply: Segment -> GeminiReply, order: seq<Segment>, wordChar: char -> bool)
    returns (completed: seq<OcrResult>)
    ensures completed == Processed(reply, order, wordChar)
  {
    completed := [];
    var k := 0;
    while k < |order|
      invariant 0 <= k <= |order|
      invariant completed == Processed(reply, order[..k], wordChar)
    {
      var seg := order[k];
      MapSeqStep((seg: Segment) => ProcessSegment(seg, reply(seg), wordChar), order, k);
      completed := completed + [ProcessSegment(seg, reply(seg), wordChar)];
      k := k + 1;
    }
    assert order[..|order|] == order;
  }

  // ---------------------------------------------------------------------------------------
  // Properties

  /** One more element of the input adds its image at the end. */
  lemma MapSeqStep<T, U>(f: T -> U, xs: seq<T>, i: nat)
    requires i < |xs|
    ensures MapSeq(f, xs[..i + 1]) == MapSeq(f, xs[..i]) + [f(xs[i])]
  {
    assert xs[..i + 1][..i] == xs[..i];
  }

  lemma {:induction false} MapSeqAt<T, U>(f: T -> U, xs: seq<T>)
    ensures forall k :: 0 <= k < |xs| ==> MapSeq(f, xs)[k] == f(xs[k])
  {
    if xs != [] {
      MapSeqAt(f, xs[..|xs| - 1]);
    }
  }

  lemma {:induction false} MapSeqAppend<T, U>(f: T -> U, a: seq<T>, b: seq<T>)
    ensures MapSeq(f, a + b) == MapSeq(f, a) + MapSeq(f, b)
    decreases |b|
  {
    if b != [] {
      var b' := b[..|b| - 1];
      assert (a + b)[..|a + b| - 1] == a + b';
      MapSeqAppend(f, a, b');
    } else {
      assert a + b == a;
    }
  }

  /** Rearranging the input rearranges the output: the same elements come out. */
  lemma {:induction false} MapSeqPermutes<T, U>(f: T -> U, a: seq<T>, b: seq<T>)
    requires multiset(a) == multiset(b)
    ensures multiset(MapSeq(f, a)) == multiset(MapSeq(f, b))
    decreases |a|
  {
    if a == [] {
      assert |b| == |multiset(b)| == 0;
    } else {
      var x := a[|a| - 1];
      var a' := a[..|a| - 1];
      assert a == a' + [x];
      assert x in multiset(b);
      var j :| 0 <= j < |b| && b[j] == x;
      MultisetCancel(a', b, j, x);
      MapSeqPermutes(f, a', b[..j] + b[j + 1..]);
      MapSeqRemove(f, b, j);
    }
  }

  /** Taking one element out of the input takes its image out of the output. */
  lemma MapSeqRemove<T, U>(f: T -> U, b: seq<T>, j: nat)
    requires j < |b|
    ensures multiset(MapSeq(f, b)) == multiset(MapSeq(f, b[..j] + b[j + 1..])) + multiset{f(b[j])}
  {
    var front, back := b[..j], b[j + 1..];
    assert b == front + ([b[j]] + back);
    MapSeqAppend(f, front, [b[j]] + back);
    MapSeqCons(f, b[j], back);
    MapSeqAppend(f, front, back);
    MultisetMiddle(MapSeq(f, front), f(b[j]), MapSeq(f, back));
  }

  lemma MapSeqCons<T, U>(f: T -> U, x: T, xs: seq<T>)
    ensures MapSeq(f, [x] + xs) == [f(x)] + MapSeq(f, xs)
  {
    MapSeqAppend(f, [x], xs);
    assert MapSeq(f, [x]) == [f(x)];
  }

  lemma MultisetMiddle<U>(m: seq<U>, y: U, n: seq<U>)
    ensures multiset(m + ([y] + n)) == multiset(m + n) + multiset{y}
  {
  }

  /** Taking the same element out of two equal multisets. */
  lemma MultisetCancel<T>(a: seq<T>, b: seq<T>, j: nat, x: T)
    requires j < |b| && b[j] == x && multiset(a + [x]) == multiset(b)
    ensures multiset(a) == multiset(b[..j] + b[j + 1..])
  {
    var b' := b[..j] + b[j + 1..];
    assert b == b[..j] + [x] + b[j + 1..];
    assert multiset(b) == multiset(b[..j]) + multiset([x]) + multiset(b[j + 1..]);
    assert multiset(b') == multiset(b[..j]) + multiset(b[j + 1..]);
    assert multiset(a) == multiset(a + [x]) - multiset{x};
    assert multiset(b') == multiset(b) - multiset{x};
  }

  lemma ByIndexOrders()
    ensures Total(ByIndex()) && Transitive(ByIndex())
  {
  }

  /** With Gemini, the stage returns one record per band (the records of all bands, each
      once, whatever order the calls complete in), sorted by band number. */
  lemma OcrResultsArePerSegment(segs: seq<Segment>, reply: Segment -> GeminiReply, order: seq<Segment>,
                                wordChar: char -> bool)
    requires multiset(order) == multiset(segs)
    ensures var results := SortBy(Processed(reply, order, wordChar), ByIndex());
      && multiset(results) == multiset(Processed(reply, segs, wordChar))
      && SortedBy(results, ByIndex())
  {
    MapSeqPermutes((seg: Segment) => ProcessSegment(seg, reply(seg), wordChar), order, segs);
    ByIndexOrders();
    SortBySorted(Processed(reply, order, wordChar), ByIndex());
  }

  /** The record of a band carries that band's fields, the stripped reply text and the
      cleaned form of that text. */
  lemma ProcessedFields(reply: Segment -> GeminiReply, segs: seq<Segment>, wordChar: char -> bool)
    ensures var rs := Processed(reply, segs, wordChar);
      |rs| == |segs|
      && forall k :: 0 <= k < |rs| ==>
        && rs[k].index == segs[k].index && rs[k].path == segs[k].path
        && rs[k].top == segs[k].top && rs[k].bottom == segs[k].bottom
        && rs[k].rawText == RunGeminiOcr(true, reply(segs[k]))
        && rs[k].cleanText == CleanText(rs[k].rawText, wordChar)
  {
    MapSeqAt((seg: Segment) => ProcessSegment(seg, reply(seg), wordChar), segs);
  }

  /** Bands numbered in increasing order, as the slicers number them, come back exactly in
      their own order: record `k` is the record of band `k`. */
  lemma OcrResultsInBandOrder(segs: seq<Segment>, reply: Segment -> GeminiReply, order: seq<Segment>,
                              wordChar: char -> bool)
    requires multiset(order) == multiset(segs)
    requires forall i, j :: 0 <= i < j < |segs| ==> segs[i].index < segs[j].index
    ensures SortBy(Processed(reply, order, wordChar), ByIndex()) == Processed(reply, segs, wordChar)
  {
    OcrResultsArePerSegment(segs, reply, order, wordChar);
    var results := SortBy(Processed(reply, order, wordChar), ByIndex());
    var per := Processed(reply, segs, wordChar);
    ProcessedFields(reply, segs, wordChar);
    assert StrictlyIncreasing(per, IndexOf);
    SortedUnique(results, per, IndexOf);
  }

  /** Without Gemini every band gets a record with empty texts, in band order. */
  lemma SkippedFields(segs: seq<Segment>)
    ensures var rs := MapSeq(Skipped, segs);
      |rs| == |segs|
      && forall k :: 0 <= k < |rs| ==>
        && rs[k].index == segs[k].index && rs[k].path == segs[k].path
        && rs[k].top == segs[k].top && rs[k].bottom == segs[k].bottom
        && rs[k].rawText == "" && rs[k].cleanText == ""
  {
    MapSeqAt(Skipped, segs);
  }
}
