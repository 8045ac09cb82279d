/** `transcribe_website`: up to two interactive captures (the second with JavaScript off), a
    static render of the downloaded HTML when both fail, then OCR of every band and the
    combined text. */
module Pipeline {
  import opened Results
  import opened Strings
  import opened Sorting
  import opened Slicing
  import opened Capture
  import opened Launch
  import opened Page
  import opened Ocr
  import opened Stitch

  /** How a page behaves once loaded: whether loading it (or reading its meta data) raised,
      its meta data, and what the capture sees. */
  datatype PageEnv = PageEnv(loadError: Option<string>, meta: Meta, page: PageModel)

  /** What a successful capture hands back: the meta data, the visible text (never read, so
      always ""), the merged picture and the record of its bands. */
  datatype Captured = Captured(meta: Meta, visibleText: string, screenshot: string, segments: seq<Segment>)

  /** What the static render meets: whether the `requests` library is installed, what the
      download gives (an HTML text or the exception's message), and how a page behaves
      when given a sanitised HTML text. */
  datatype StaticEnv = StaticEnv(requestsAvailable: bool, download: Result<string, string>,
                                 render: string -> PageEnv)

  /** The result of a transcription. */
  datatype Transcript = Transcript(url: string, screenshot: string, segments: seq<OcrResult>,
                                   combinedText: string, visibleText: string, meta: Meta,
                                   sliceHeight: int, overlap: int)

  const ScreenshotFailedMessage: string := "スクリーンショットの取得に失敗しました。"
  const RequestsMissingMessage: string :=
    "requests ライブラリが見つからないため、HTMLダウンロード方式のキャプチャに失敗しました。"

  function DownloadFailedMessage(e: string): string {
    "HTMLのダウンロードに失敗しました: " + e
  }

  /** The message raised when the static render fails too: it names the interactive
      capture's last exception, when there was one, and the static render's. */
  function StaticFailedMessage(captureError: Option<string>, fallbackError: string): string {
    ScreenshotFailedMessage
    + (if captureError.Some? then " 原因: " + captureError.value else "")
    + " / HTMLダウンロード方式も失敗しました: " + fallbackError
  }

  /** `load_and_capture` (and the capture half of `capture_static_render`): load the page,
      read its meta data, capture it. */
  function LoadAndCapture(env: PageEnv, runDir: string, sh: int, ov: int): Result<Captured, string>
    requires 1 <= sh && ov < sh
  {
    if env.loadError.Some? then Failure(env.loadError.value)
    else match CaptureSpec(env.page, runDir, sh, ov)
      case Failure(e) => Failure(e)
      case Success(shots) => Success(Captured(env.meta, "", shots.screenshot, shots.segments))
  }

  /** `capture_static_render`: download the page, sanitise it, start a browser (the third
      call of `launch_browser`, which `starts` describes), render and capture it. */
  function StaticRender(senv: StaticEnv, url: string, runDir: string, sh: int, ov: int,
                        stripScripts: string -> string, shell: Option<string>, starts: Strategy -> bool)
    : Result<Captured, string>
    requires 1 <= sh && ov < sh
  {
    if !senv.requestsAvailable then Failure(RequestsMissingMessage)
    else match senv.download
      case Failure(e) => Failure(DownloadFailedMessage(e))
      case Success(html) =>
        if !AnyStarts(shell, starts) then Failure(LaunchFailedMessage)
        else LoadAndCapture(senv.render(SanitizeHtml(html, url, stripScripts)), runDir, sh, ov)
  }

  /** The capture chain: attempt 0 with JavaScript, attempt 1 without, then the static render.
      A browser that will not start in an interactive attempt ends everything; every other
      failure moves on to the next way. `starts(k)` says which strategies start on the
      `k`-th call of `launch_browser`; `pageEnv(js)` is the page with JavaScript on or off. */
  function CaptureChain(url: string, runDir: string, sh: int, ov: int, shell: Option<string>,
                        starts: nat -> Strategy -> bool, pageEnv: bool -> PageEnv,
                        senv: StaticEnv, stripScripts: string -> string): Result<Captured, string>
    requires 1 <= sh && ov < sh
  {
    if !AnyStarts(shell, starts(0)) then Failure(LaunchFailedMessage)
    else match LoadAndCapture(pageEnv(true), runDir, sh, ov)
      case Success(c) => Success(c)
      case Failure(_) =>
        if !AnyStarts(shell, starts(1)) then Failure(LaunchFailedMessage)
        else match LoadAndCapture(pageEnv(false), runDir, sh, ov)
          case Success(c) => Success(c)
          case Failure(e2) =>
            match StaticRender(senv, url, runDir, sh, ov, stripScripts, shell, starts(2))
            case Success(c) => Success(c)
            case Failure(e) => Failure(StaticFailedMessage(Some(e2), e))
  }

  /** The bands handed to OCR: the captured ones, or a single band standing for the whole
      picture when none were recorded. */
  function Bands(c: Captured): seq<Segment> {
    if c.segments == [] then [Segment(1, c.screenshot, 0, 0)] else c.segments
  }

  function CleanTextOf(r: OcrResult): string {
    r.cleanText
  }

  /** The OCR stage's records: sorted completion order with Gemini, band order without. */
  function OcrRecords(bands: seq<Segment>, available: bool, reply: Segment -> GeminiReply,
                      order: seq<Segment> -> seq<Segment>, wordChar: char -> bool): seq<OcrResult> {
    if available then SortBy(Processed(reply, order(bands), wordChar), ByIndex())
    else MapSeq(Skipped, bands)
  }

  /** The transcript of a capture: OCR of its bands, their combined text, and the visible
      text in its place when the combined text is empty. */
  function Finish(c: Captured, url: string, sh: int, ov: int, available: bool, reply: Segment -> GeminiReply,
                  order: seq<Segment> -> seq<Segment>, wordChar: char -> bool): Transcript {
    var records := OcrRecords(Bands(c), available, reply, order, wordChar);
    var combined := CombinedText(MapSeq(CleanTextOf, records));
    Transcript(url, c.screenshot, records, if combined == "" then c.visibleText else combined,
               c.visibleText, c.meta, sh, ov)
  }

  /** The whole transcription: the capture chain, then OCR and combination. */
  function TranscribeSpec(url: string, runDir: string, sh: int, ov: int, shell: Option<string>,
                          starts: nat -> Strategy -> bool, pageEnv: bool -> PageEnv,
                          senv: StaticEnv, stripScripts: string -> string, available: bool,
                          reply: Segment -> GeminiReply, order: seq<Segment> -> seq<Segment>,
                          wordChar: char -> bool): Result<Transcript, string>
    requires 1 <= sh && ov < sh
  {
    match CaptureChain(url, runDir, sh, ov, shell, starts, pageEnv, senv, stripScripts)
    case Failure(e) => Failure(e)
    case Success(c) => Success(Finish(c, url, sh, ov, available, reply, order, wordChar))
  }

  /** `transcribe_website`. `attempts` lists the interactive attempts begun, by whether
      JavaScript was on. `order(bands)` is the order in which the OCR calls complete. */
  method TranscribeWebsite(url: string, runDir: string, sh: int, ov: int, shell: Option<string>,
                           starts: nat -> Strategy -> bool, pageEnv: bool -> PageEnv,
                           senv: StaticEnv, stripScripts: string -> string, available: bool,
                           reply: Segment -> GeminiReply, order: seq<Segment> -> seq<Segment>,
                           wordChar: char -> bool)
    returns (r: Result<Transcript, string>, attempts: seq<bool>)
    requires 1 <= sh && ov < sh
    requires forall bands :: multiset(order(bands)) == multiset(bands)
    ensures r == TranscribeSpec(url, runDir, sh, ov, shell, starts, pageEnv, senv, stripScripts,
                                available, reply, order, wordChar)
    ensures attempts == [true] || attempts == [true, false]
    ensures |attempts| == 2 <==>
      AnyStarts(shell, starts(0)) && LoadAndCapture(pageEnv(true), runDir, sh, ov).Failure?
  {
    var captured: Captured := Captured(Meta("", "", ""), "", "", []);
    var screenshot: Option<string> := None;
    var success := false;
    var captureError: Option<string> := None;
    attempts := [];
    var attempt := 0;
    while attempt < 2
      invariant 0 <= attempt <= 2 && attempts == [true, false][..attempt]
      invariant !success && screenshot.None?
      invariant attempt >= 1 ==> AnyStarts(shell, starts(0)) && LoadAndCapture(pageEnv(true), runDir, sh, ov).Failure?
      invariant attempt == 1 ==> captureError == Some(LoadAndCapture(pageEnv(true), runDir, sh, ov).error)
      invariant attempt == 2 ==> AnyStarts(shell, starts(1)) && LoadAndCapture(pageEnv(false), runDir, sh, ov).Failure?
                                 && captureError == Some(LoadAndCapture(pageEnv(false), runDir, sh, ov).error)
    {
      var jsEnabled := attempt == 0;
      attempts := attempts + [jsEnabled];
      var browser, _ := LaunchBrowser(shell, starts(attempt));
      if browser.Failure? {
        return Failure(browser.error), attempts;
      }
      var outcome := LoadAndCapture(pageEnv(jsEnabled), runDir, sh, ov);
      if outcome.Success? {
        captured := outcome.value;
        screenshot := Some(outcome.value.screenshot);
        success := true;
        break;
      }
      captureError := Some(outcome.error);
      attempt := attempt + 1;
    }
    if !success || screenshot.None? {
      var fallback := CaptureStaticRender(senv, url, runDir, sh, ov, stripScripts, shell, starts(2));
      if fallback.Failure? {
        return Failure(StaticFailedMessage(captureError, fallback.error)), attempts;
      }
      captured := fallback.value;
    }
    var t := FinishTranscript(captured, url, sh, ov, available, reply, order, wordChar);
    return Success(t), attempts;
  }

  /** `capture_static_render` step by step. */
  method CaptureStaticRender(senv: StaticEnv, url: string, runDir: string, sh: int, ov: int,
                             stripScripts: string -> string, shell: Option<string>, starts: Strategy -> bool)
    returns (r: Result<Captured, string>)
    requires 1 <= sh && ov < sh
    ensures r == StaticRender(senv, url, runDir, sh, ov, stripScripts, shell, starts)
  {
    if !senv.requestsAvailable {
      return Failure(RequestsMissingMessage);
    }
    if senv.download.Failure? {
      return Failure(DownloadFailedMessage(senv.download.error));
    }
    var sanitized := SanitizeHtml(senv.download.value, url, stripScripts);
    var browser, _ := LaunchBrowser(shell, starts);
    if browser.Failure? {
      return Failure(browser.error);
    }
    r := LoadAndCapture(senv.render(sanitized), runDir, sh, ov);
  }

  /** The part of `transcribe_website` after the capture. */
  method FinishTranscript(c: Captured, url: string, sh: int, ov: int, available: bool,
                          reply: Segment -> GeminiReply, order: seq<Segment> -> seq<Segment>,
                          wordChar: char -> bool)
    returns (t: Transcript)
    requires forall bands :: multiset(order(bands)) == multiset(bands)
    ensures t == Finish(c, url, sh, ov, available, reply, order, wordChar)
  {
    var bands := c.segments;
    if bands == [] {
      bands := [Segment(1, c.screenshot, 0, 0)];
    }
    var records := RunOcrOnSegments(bands, available, reply, order(bands), wordChar);
    var combined := CombineCleanSegments(MapSeq(CleanTextOf, records));
    if combined == "" {
      combined := c.visibleText;
    }
    t := Transcript(url, c.screenshot, records, combined, c.visibleText, c.meta, sh, ov);
  }

  // ---------------------------------------------------------------------------------------
  // Properties

  /** The transcription fails exactly when a browser will not start for an interactive
      attempt it needs, or when both interactive attempts and the static render fail; the
      failure is then the launch message, or the message naming both causes. */
  lemma TranscribeFailsIff(url: string, runDir: string, sh: int, ov: int, shell: Option<string>,
                           starts: nat -> Strategy -> bool, pageEnv: bool -> PageEnv,
                           senv: StaticEnv, stripScripts: string -> string, available: bool,
                           reply: Segment -> GeminiReply, order: seq<Segment> -> seq<Segment>,
                           wordChar: char -> bool)
    requires 1 <= sh && ov < sh
    ensures var r := TranscribeSpec(url, runDir, sh, ov, shell, starts, pageEnv, senv, stripScripts,
                                    available, reply, order, wordChar);
      var a0 := LoadAndCapture(pageEnv(true), runDir, sh, ov);
      var a1 := LoadAndCapture(pageEnv(false), runDir, sh, ov);
      var st := StaticRender(senv, url, runDir, sh, ov, stripScripts, shell, starts(2));
      && (r.Failure? <==>
            !AnyStarts(shell, starts(0))
            || (a0.Failure? && !AnyStarts(shell, starts(1)))
            || (a0.Failure? && a1.Failure? && st.Failure?))
      && (r.Failure? ==>
            r.error == LaunchFailedMessage
            || (a1.Failure? && st.Failure? && r.error == StaticFailedMessage(Some(a1.error), st.error)))
  {
  }

  /** The static render is only a last resort: whenever either interactive attempt captures
      the page, the transcript is made from that capture, the one with JavaScript first. */
  lemma InteractiveCaptureWins(url: string, runDir: string, sh: int, ov: int, shell: Option<string>,
                               starts: nat -> Strategy -> bool, pageEnv: bool -> PageEnv,
                               senv: StaticEnv, stripScripts: string -> string)
    requires 1 <= sh && ov < sh
    requires AnyStarts(shell, starts(0)) && AnyStarts(shell, starts(1))
    ensures var chain := CaptureChain(url, runDir, sh, ov, shell, starts, pageEnv, senv, stripScripts);
      var a0 := LoadAndCapture(pageEnv(true), runDir, sh, ov);
      var a1 := LoadAndCapture(pageEnv(false), runDir, sh, ov);
      && (a0.Success? ==> chain == a0)
      && (a0.Failure? && a1.Success? ==> chain == a1)
      && (a0.Failure? && a1.Failure? ==>
            chain.Success? == StaticRender(senv, url, runDir, sh, ov, stripScripts, shell, starts(2)).Success?)
  {
  }

  /** Every capture records its bands numbered 1, 2, ... in order. */
  lemma CapturedBandsNumbered(env: PageEnv, runDir: string, sh: int, ov: int)
    requires 1 <= sh && ov < sh
    ensures var r := LoadAndCapture(env, runDir, sh, ov);
      r.Success? ==> forall k :: 0 <= k < |r.value.segments| ==> r.value.segments[k].index == k + 1
  {
    var page := env.page;
    PrimarySlicesTops(runDir, page.scrollHeight, sh, ov);
    var plan := FallbackPlan(runDir, page.scrollHeight, FallbackViewport(page, sh), Some(2));
    StackedMetaTiles(plan);
  }

  /** Whatever the capture chain hands back has its bands numbered 1, 2, ... */
  lemma ChainBandsNumbered(url: string, runDir: string, sh: int, ov: int, shell: Option<string>,
                           starts: nat -> Strategy -> bool, pageEnv: bool -> PageEnv,
                           senv: StaticEnv, stripScripts: string -> string)
    requires 1 <= sh && ov < sh
    ensures var chain := CaptureChain(url, runDir, sh, ov, shell, starts, pageEnv, senv, stripScripts);
      chain.Success? ==> forall k :: 0 <= k < |Bands(chain.value)| ==> Bands(chain.value)[k].index == k + 1
  {
    CapturedBandsNumbered(pageEnv(true), runDir, sh, ov);
    CapturedBandsNumbered(pageEnv(false), runDir, sh, ov);
    if senv.requestsAvailable && senv.download.Success? {
      CapturedBandsNumbered(senv.render(SanitizeHtml(senv.download.value, url, stripScripts)), runDir, sh, ov);
    }
  }

  /** A transcript holds one OCR record per band, in band order, never none: with no band
      recorded, the whole picture is the single band 1 at rows 0 to 0. With Gemini the
      records do not depend on the order in which the calls complete. */
  lemma TranscriptRecords(c: Captured, url: string, sh: int, ov: int, available: bool,
                          reply: Segment -> GeminiReply, order: seq<Segment> -> seq<Segment>,
                          wordChar: char -> bool)
    requires forall bands :: multiset(order(bands)) == multiset(bands)
    requires forall k :: 0 <= k < |Bands(c)| ==> Bands(c)[k].index == k + 1
    ensures var t := Finish(c, url, sh, ov, available, reply, order, wordChar);
      && |t.segments| == |Bands(c)| >= 1
      && (c.segments == [] ==> Bands(c) == [Segment(1, c.screenshot, 0, 0)])
      && (available ==> t.segments == Processed(reply, Bands(c), wordChar))
      && (!available ==> t.segments == MapSeq(Skipped, Bands(c)))
      && forall k :: 0 <= k < |t.segments| ==> t.segments[k].index == k + 1
  {
    var bands := Bands(c);
    if available {
      assert multiset(order(bands)) == multiset(bands);
      OcrResultsInBandOrder(bands, reply, order(bands), wordChar);
      ProcessedFields(reply, bands, wordChar);
    } else {
      SkippedFields(bands);
    }
  }

  /** The combined text is the OCR text combined across bands; since the visible text is
      never read, it is empty exactly when no band's cleaned text holds a non-blank
      paragraph. */
  lemma TranscriptText(url: string, runDir: string, sh: int, ov: int, shell: Option<string>,
                       starts: nat -> Strategy -> bool, pageEnv: bool -> PageEnv,
                       senv: StaticEnv, stripScripts: string -> string, available: bool,
                       reply: Segment -> GeminiReply, order: seq<Segment> -> seq<Segment>,
                       wordChar: char -> bool)
    requires 1 <= sh && ov < sh
    ensures var r := TranscribeSpec(url, runDir, sh, ov, shell, starts, pageEnv, senv, stripScripts,
                                    available, reply, order, wordChar);
      r.Success? ==>
        var texts := MapSeq(CleanTextOf, r.value.segments);
        && r.value.visibleText == ""
        && r.value.combinedText == CombinedText(texts)
        && (r.value.combinedText == "" <==> forall k :: 0 <= k < |texts| ==> Strip(texts[k]) == "")
  {
    var chain := CaptureChain(url, runDir, sh, ov, shell, starts, pageEnv, senv, stripScripts);
    if chain.Success? {
      ChainVisibleTextEmpty(url, runDir, sh, ov, shell, starts, pageEnv, senv, stripScripts);
      var t := Finish(chain.value, url, sh, ov, available, reply, order, wordChar);
      CombinedTextEmpty(MapSeq(CleanTextOf, t.segments));
    }
  }

  /** No capture reads the visible text. */
  lemma ChainVisibleTextEmpty(url: string, runDir: string, sh: int, ov: int, shell: Option<string>,
                              starts: nat -> Strategy -> bool, pageEnv: bool -> PageEnv,
                              senv: StaticEnv, stripScripts: string -> string)
    requires 1 <= sh && ov < sh
    ensures var chain := CaptureChain(url, runDir, sh, ov, shell, starts, pageEnv, senv, stripScripts);
      chain.Success? ==> chain.value.visibleText == ""
  {
  }
}
