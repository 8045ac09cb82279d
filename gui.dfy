/** The desktop front end's bookkeeping outside the widgets: the slug used for output
    folders, the integer fields of the settings form, the result paths picked out of the
    pipeline's output, the sponsored-ad URLs and the command line of the pipeline run. */
module Gui {
  import opened Results
  import opened Strings
  import opened Decimal
  import opened DedupFilter

  // ---------------------------------------------------------------------------------------
  // slugify

  /** The characters of the class `[0-9a-zA-Z一-龥ぁ-んァ-ヶー_]`. */
  predicate SlugChar(c: char) {
    || '0' <= c <= '9' || 'a' <= c <= 'z' || 'A' <= c <= 'Z'
    || '\U{4E00}' <= c <= '\U{9FA5}'
    || '\U{3041}' <= c <= '\U{3093}'
    || '\U{30A1}' <= c <= '\U{30F6}'
    || c == '\U{30FC}' || c == '_'
  }

  predicate Underscore(c: char) {
    c == '_'
  }

  /** The substitution of `"_"` for every maximal run of characters that `keep` rejects;
      `inRun` says that a run has already been replaced just before `s`. */
  function CollapseRuns(s: string, inRun: bool, keep: char -> bool): string
    decreases |s|
  {
    if s == [] then []
    else if keep(s[0]) then [s[0]] + CollapseRuns(s[1..], false, keep)
    else if inRun then CollapseRuns(s[1..], true, keep)
    else "_" + CollapseRuns(s[1..], true, keep)
  }

  /** Every character of `r` is one `keep` accepts or `_`. */
  predicate KeptOrUnderscore(r: string, keep: char -> bool) {
    forall i :: 0 <= i < |r| ==> keep(r[i]) || r[i] == '_'
  }

  /** The substitution leaves only characters `keep` accepts and `_`. */
  lemma {:induction false} CollapsedChars(s: string, inRun: bool, keep: char -> bool)
    ensures KeptOrUnderscore(CollapseRuns(s, inRun, keep), keep)
    decreases |s|
  {
    if s != [] {
      var rest := CollapseRuns(s[1..], !keep(s[0]), keep);
      CollapsedChars(s[1..], !keep(s[0]), keep);
      var r := CollapseRuns(s, inRun, keep);
      var h := if keep(s[0]) then [s[0]] else if inRun then [] else "_";
      assert r == h + rest;
      assert KeptOrUnderscore(h, keep);
      forall i | |h| <= i < |r| ensures keep(r[i]) || r[i] == '_' {
        assert r[i] == rest[i - |h|];
      }
    }
  }

  /** Whether a run is open after `a`, when `inRun` said so before it. */
  function RunOpenAfter(a: string, inRun: bool, keep: char -> bool): bool {
    if a == [] then inRun else !keep(a[|a| - 1])
  }

  /** `x.strip("_")`, or "default" when nothing is left: never empty, no `_` at either end,
      and made of characters of `x`. */
  function TrimOrDefault(x: string): (r: string)
    ensures r != "" && r[0] != '_' && r[|r| - 1] != '_'
    ensures r == DefaultSlug() || forall i :: 0 <= i < |r| ==> r[i] in x
  {
    var slug := StripRight(StripLeft(x, Underscore), Underscore);
    TrimmedWithin(x);
    if slug == "" then DefaultSlug() else slug
  }

  /** The slug of a text with no character of the class. */
  function DefaultSlug(): (r: string)
    ensures r != "" && r[0] != '_' && r[|r| - 1] != '_'
    ensures forall i :: 0 <= i < |r| ==> SlugChar(r[i])
  {
    var d := "default";
    assert d == ['d', 'e', 'f', 'a', 'u', 'l', 't'];
    d
  }

  /** What is left after stripping `_` from both ends has no `_` at either end and is made
      of characters of `x`. */
  lemma TrimmedWithin(x: string)
    ensures var slug := StripRight(StripLeft(x, Underscore), Underscore);
      slug == "" || (slug[0] != '_' && slug[|slug| - 1] != '_' && forall i :: 0 <= i < |slug| ==> slug[i] in x)
  {
    var left := StripLeft(x, Underscore);
    var slug := StripRight(left, Underscore);
    var k := |x| - |left|;
    assert slug == x[k..k + |slug|];
    if slug != "" {
      assert slug[0] == left[0];
      forall i | 0 <= i < |slug| ensures slug[i] in x {
        assert slug[i] == x[k + i];
      }
    }
  }

  /** `slugify`: `fold` is the NFKC normalisation followed by `lower()`. The slug is never
      empty, has no `_` at either end and holds only characters of the class. */
  function Slugify(text: string, fold: string -> string): (r: string)
    ensures r != "" && r[0] != '_' && r[|r| - 1] != '_'
    ensures forall i :: 0 <= i < |r| ==> SlugChar(r[i])
  {
    var collapsed := CollapseRuns(fold(text), false, SlugChar);
    CollapsedChars(fold(text), false, SlugChar);
    SlugCharsKept(collapsed, SlugChar);
    TrimOrDefault(collapsed)
  }

  /** Trimming keeps to the characters `keep` accepts (`_` among them) when the text held
      no others. */
  lemma SlugCharsKept(collapsed: string, keep: char -> bool)
    requires KeptOrUnderscore(collapsed, keep)
    requires keep('_') && forall i :: 0 <= i < |DefaultSlug()| ==> keep(DefaultSlug()[i])
    ensures var r := TrimOrDefault(collapsed);
      forall i :: 0 <= i < |r| ==> keep(r[i])
  {
    var r := TrimOrDefault(collapsed);
    if r != DefaultSlug() {
      forall i | 0 <= i < |r| ensures keep(r[i]) {
        var j :| 0 <= j < |collapsed| && collapsed[j] == r[i];
      }
    }
  }

  lemma {:induction false} CollapseAppend(a: string, b: string, inRun: bool, keep: char -> bool)
    ensures CollapseRuns(a + b, inRun, keep)
         == CollapseRuns(a, inRun, keep) + CollapseRuns(b, RunOpenAfter(a, inRun, keep), keep)
    decreases |a|
  {
    if a == [] {
      assert a + b == b;
    } else {
      var next := !keep(a[0]);
      var h := CollapseRuns([a[0]], inRun, keep);
      var openAfter := RunOpenAfter(a, inRun, keep);
      assert RunOpenAfter(a[1..], next, keep) == openAfter by {
        if a[1..] != [] {
          assert a[1..][|a[1..]| - 1] == a[|a| - 1];
        }
      }
      calc {
        CollapseRuns(a + b, inRun, keep);
        { CollapseStep(a, b, inRun, keep); }
        h + CollapseRuns(a[1..] + b, next, keep);
        { CollapseAppend(a[1..], b, next, keep); }
        h + (CollapseRuns(a[1..], next, keep) + CollapseRuns(b, openAfter, keep));
        (h + CollapseRuns(a[1..], next, keep)) + CollapseRuns(b, openAfter, keep);
        { CollapseStep(a, b, inRun, keep); }
        CollapseRuns(a, inRun, keep) + CollapseRuns(b, openAfter, keep);
      }
    }
  }

  /** The first character of `a` is handled the same with or without `b` behind it. */
  lemma CollapseStep(a: string, b: string, inRun: bool, keep: char -> bool)
    requires a != []
    ensures var h := CollapseRuns([a[0]], inRun, keep);
      && CollapseRuns(a + b, inRun, keep) == h + CollapseRuns(a[1..] + b, !keep(a[0]), keep)
      && CollapseRuns(a, inRun, keep) == h + CollapseRuns(a[1..], !keep(a[0]), keep)
  {
    assert (a + b)[0] == a[0] && (a + b)[1..] == a[1..] + b;
    assert [a[0]][1..] == [];
  }

  /** Inside a run, more rejected characters add nothing. */
  lemma {:induction false} CollapseWithinRun(run: string, b: string, keep: char -> bool)
    requires forall i :: 0 <= i < |run| ==> !keep(run[i])
    ensures CollapseRuns(run + b, true, keep) == CollapseRuns(b, true, keep)
    decreases |run|
  {
    if run == [] {
      assert run + b == b;
    } else {
      assert (run + b)[0] == run[0] && (run + b)[1..] == run[1..] + b;
      CollapseWithinRun(run[1..], b, keep);
    }
  }

  /** A run followed by a kept character or by nothing gives one `_`. */
  lemma CollapseRun(run: string, b: string, keep: char -> bool)
    requires run != [] && forall i :: 0 <= i < |run| ==> !keep(run[i])
    requires b == [] || keep(b[0])
    ensures CollapseRuns(run + b, false, keep) == "_" + CollapseRuns(b, false, keep)
  {
    assert (run + b)[0] == run[0] && (run + b)[1..] == run[1..] + b;
    CollapseWithinRun(run[1..], b, keep);
    if b != [] {
      assert CollapseRuns(b, true, keep) == [b[0]] + CollapseRuns(b[1..], false, keep);
    }
  }

  /** Each maximal run of characters outside the class becomes exactly one `_`, and the
      text on either side of it is substituted on its own. */
  lemma RunBecomesOneUnderscore(a: string, run: string, b: string, keep: char -> bool)
    requires run != [] && forall i :: 0 <= i < |run| ==> !keep(run[i])
    requires a == [] || keep(a[|a| - 1])
    requires b == [] || keep(b[0])
    ensures CollapseRuns(a + (run + b), false, keep)
         == CollapseRuns(a, false, keep) + ("_" + CollapseRuns(b, false, keep))
  {
    CollapseAppend(a, run + b, false, keep);
    assert !RunOpenAfter(a, false, keep);
    CollapseRun(run, b, keep);
  }

  /** Text made only of kept characters is left as it is. */
  lemma {:induction false} CollapseKeepsText(s: string, keep: char -> bool)
    requires forall i :: 0 <= i < |s| ==> keep(s[i])
    ensures CollapseRuns(s, false, keep) == s
    decreases |s|
  {
    if s != [] {
      CollapseKeepsText(s[1..], keep);
    }
  }

  /** A slug whose folding changes nothing is its own slug. */
  lemma SlugifyOfSlug(text: string, fold: string -> string)
    requires fold(text) == text
    requires text != "" && text[0] != '_' && text[|text| - 1] != '_'
    requires forall i :: 0 <= i < |text| ==> SlugChar(text[i])
    ensures Slugify(text, fold) == text
  {
    CollapseKeepsText(text, SlugChar);
    var left := StripLeft(text, Underscore);
    assert !Underscore(text[0]);
    assert left == text;
    var slug := StripRight(left, Underscore);
    assert !Underscore(text[|text| - 1]);
    assert slug == text;
  }

  /** Folding the slug of a text back to itself (as lower case text does) gives the same slug. */
  lemma SlugifyIdempotent(text: string, fold: string -> string)
    requires fold(Slugify(text, fold)) == Slugify(text, fold)
    ensures Slugify(Slugify(text, fold), fold) == Slugify(text, fold)
  {
    var slug := Slugify(text, fold);
    SlugifyOfSlug(slug, fold);
  }

  // ---------------------------------------------------------------------------------------
  // _parse_int and the settings it checks

  /** `_parse_int`: the value of the text as Python's `int()` reads it, unless it cannot be
      read or is below `minimum`. */
  function ParseInt(value: string, minimum: int): (r: Option<int>)
    ensures r.Some? <==> ParseIntLiteral(value).Some? && ParseIntLiteral(value).value >= minimum
    ensures r.Some? ==> r == ParseIntLiteral(value) && r.value >= minimum
  {
    match ParseIntLiteral(value)
    case None => None
    case Some(n) => if n < minimum then None else Some(n)
  }

  /** The decimal text of a number is accepted exactly when the number is not below the minimum. */
  lemma ParseIntOfDecimal(n: int, minimum: int)
    ensures ParseInt(IntToDecimal(n), minimum) == if n >= minimum then Some(n) else None
  {
    ParseIntRoundTrip(n);
  }

  datatype CaptureSettings = CaptureSettings(sliceHeight: int, overlap: int)

  /** The band height and overlap fields as the form checks them: a height of at least 1
      and an overlap of at least 0, with no check of one against the other. */
  function ReadCaptureSettingsAsWritten(heightText: string, overlapText: string): (r: Option<CaptureSettings>)
    ensures r.Some? <==> ParseInt(heightText, 1).Some? && ParseInt(overlapText, 0).Some?
    ensures r.Some? ==> r.value.sliceHeight >= 1 && r.value.overlap >= 0
  {
    match ParseInt(heightText, 1)
    case None => None
    case Some(h) =>
      match ParseInt(overlapText, 0)
      case None => None
      case Some(o) => Some(CaptureSettings(h, o))
  }

  /** The form accepts an overlap as large as the band height (the text "1400" in both
      fields, say), for which the slicer's next band starts where the current one did, so
      the slicing loop never ends; the corrected check turns the pair down. */
  lemma OverlapEqualToHeightAccepted(n: int)
    requires n >= 1
    ensures ReadCaptureSettingsAsWritten(IntToDecimal(n), IntToDecimal(n)) == Some(CaptureSettings(n, n))
    ensures ReadCaptureSettings(IntToDecimal(n), IntToDecimal(n)) == None
  {
    ParseIntOfDecimal(n, 1);
    ParseIntOfDecimal(n, 0);
  }

  /** The settings check with the missing comparison: an overlap below the band height, so
      that every accepted pair meets the slicer's requirement `0 <= overlap < slice_height`. */
  function ReadCaptureSettings(heightText: string, overlapText: string): (r: Option<CaptureSettings>)
    ensures r.Some? ==> 0 <= r.value.overlap < r.value.sliceHeight
    ensures r.Some? <==> (ReadCaptureSettingsAsWritten(heightText, overlapText).Some?
                          && ReadCaptureSettingsAsWritten(heightText, overlapText).value.overlap
                             < ReadCaptureSettingsAsWritten(heightText, overlapText).value.sliceHeight)
  {
    match ReadCaptureSettingsAsWritten(heightText, overlapText)
    case None => None
    case Some(s) => if s.overlap >= s.sliceHeight then None else Some(s)
  }

  /** The decimal texts of a height and an overlap are accepted exactly when the slicer can
      use them, and then they are read back unchanged. */
  lemma ReadCaptureSettingsOfDecimal(h: int, o: int)
    ensures ReadCaptureSettings(IntToDecimal(h), IntToDecimal(o))
         == if 0 <= o < h then Some(CaptureSettings(h, o)) else None
  {
    ParseIntOfDecimal(h, 1);
    ParseIntOfDecimal(o, 0);
  }

  // ---------------------------------------------------------------------------------------
  // _process_pipeline_stdout_line

  const StartedMarker: string := "の処理を開始します"
  const AnalysisDoneMarker: string := "Gemini によるマーケティング分析が完了しました"
  const AnalysisFailedMarker: string := "Gemini による分析に失敗しました"
  const TranscriptionDoneMarker: string := "文字起こしとプロンプト生成が完了しました"
  const TranscriptPrefix: string := "文字起こし Markdown:"
  const AnalysisPrefix: string := "Gemini 分析結果:"
  const NotGeneratedMarker: string := "生成されていません"

  predicate Bullet(c: char) {
    c == '-' || c == '•'
  }

  /** The line without its surrounding white space and its leading list bullets. */
  function Normalized(stripped: string): string {
    Strip(StripLeft(stripped, Bullet))
  }

  /** Python's `s.split(":", 1)[1]`: what follows the first colon. */
  function AfterColon(s: string): string {
    match Find(s, ":")
    case None => ""
    case Some(i) => s[i + 1..]
  }

  /** The status message a line of the pipeline's output shows, if any. */
  function StatusUpdate(line: string): Option<string> {
    var stripped := Strip(line);
    if stripped == "" then None
    else if Contains(stripped, StartedMarker) then Some(Normalized(stripped))
    else if Contains(stripped, AnalysisDoneMarker) then Some("Gemini分析が完了しました。")
    else if Contains(stripped, AnalysisFailedMarker) then Some("Gemini分析でエラーが発生しました。")
    else if Contains(stripped, TranscriptionDoneMarker) then Some("文字起こしとプロンプト生成が完了しました。")
    else None
  }

  /** The transcript path a line announces, if any. */
  function TranscriptPath(line: string): (p: Option<string>)
    ensures p.Some? ==> p.value != "" && Strip(p.value) == p.value
  {
    var n := Normalized(Strip(line));
    if StartsWith(n, TranscriptPrefix) then
      var path := Strip(AfterColon(n));
      StripIdempotent(AfterColon(n));
      if path != "" then Some(path) else None
    else None
  }

  /** The analysis path a line announces, if any: never one that says it was not generated. */
  function AnalysisPath(line: string): (p: Option<string>)
    ensures p.Some? ==> p.value != "" && Strip(p.value) == p.value && !Contains(p.value, NotGeneratedMarker)
    ensures p.Some? ==> TranscriptPath(line).None?
  {
    var n := Normalized(Strip(line));
    if StartsWith(n, TranscriptPrefix) then None
    else if StartsWith(n, AnalysisPrefix) then
      var path := Strip(AfterColon(n));
      StripIdempotent(AfterColon(n));
      if path != "" && !Contains(path, NotGeneratedMarker) then Some(path) else None
    else None
  }

  /** A blank line shows no status and announces no path. */
  lemma BlankLine(line: string)
    requires Strip(line) == ""
    ensures StatusUpdate(line).None? && TranscriptPath(line).None? && AnalysisPath(line).None?
  {
    assert Normalized("") == "";
    assert !StartsWith("", TranscriptPrefix) && !StartsWith("", AnalysisPrefix);
  }

  /** What a line's leading white space, bullets and white space may be: `w1 + b + w2`
      with `w1` and `w2` white space and `b` bullets. */
  predicate LineLead(w1: string, b: string, w2: string) {
    && (forall i :: 0 <= i < |w1| ==> IsSpace(w1[i]))
    && (forall i :: 0 <= i < |b| ==> Bullet(b[i]))
    && (forall i :: 0 <= i < |w2| ==> IsSpace(w2[i]))
  }

  /** A text behind such a lead, which starts with neither white space nor a bullet and
      does not end with white space, is what normalisation leaves. */
  lemma NormalizedOfLead(w1: string, b: string, w2: string, body: string)
    requires LineLead(w1, b, w2)
    requires body != [] && !IsSpace(body[0]) && !Bullet(body[0]) && !IsSpace(body[|body| - 1])
    ensures Normalized(Strip(w1 + b + w2 + body)) == body
  {
    if b == [] {
      StripOfBareLead(w1, w2, body);
      NormalizedOfBody(body);
    } else {
      StripOfBulletLead(w1, b, w2, body);
      StripLeftOfRun(b, w2 + body, Bullet);
      StripOfSpacesThen(w2, body);
    }
  }

  lemma NormalizedOfBody(body: string)
    requires body != [] && !IsSpace(body[0]) && !Bullet(body[0]) && !IsSpace(body[|body| - 1])
    ensures Normalized(body) == body
  {
    assert StripLeft(body, Bullet) == body;
    StripOfTrimmed(body);
  }

  lemma StripOfBareLead(w1: string, w2: string, body: string)
    requires LineLead(w1, [], w2)
    requires body != [] && !IsSpace(body[0]) && !IsSpace(body[|body| - 1])
    ensures Strip(w1 + [] + w2 + body) == body
  {
    var w := w1 + w2;
    assert w1 + [] + w2 + body == w + body;
    forall i | 0 <= i < |w| ensures IsSpace(w[i]) {
      if i >= |w1| {
        assert w[i] == w2[i - |w1|];
      }
    }
    StripOfSpacesThen(w, body);
  }

  lemma StripOfBulletLead(w1: string, b: string, w2: string, body: string)
    requires LineLead(w1, b, w2) && b != []
    requires body != [] && !IsSpace(body[|body| - 1])
    ensures Strip(w1 + b + w2 + body) == b + (w2 + body)
  {
    var t := b + (w2 + body);
    assert w1 + b + w2 + body == w1 + t;
    assert t[0] == b[0] && t[|t| - 1] == body[|body| - 1];
    StripOfSpacesThen(w1, t);
  }

  /** The text after the first colon of `prefix + " " + p`, for a prefix whose only colon is
      its last character, stripped, is `p`. */
  lemma PathAfterPrefix(prefix: string, p: string)
    requires |prefix| >= 1 && prefix[|prefix| - 1] == ':'
    requires forall j :: 0 <= j < |prefix| - 1 ==> prefix[j] != ':'
    requires p != "" && Strip(p) == p
    ensures StartsWith(prefix + " " + p, prefix)
    ensures Strip(AfterColon(prefix + " " + p)) == p
  {
    var n := prefix + " " + p;
    var i := |prefix| - 1;
    assert n[..|prefix|] == prefix;
    assert n[i..i + 1] == [':'];
    forall j | 0 <= j < i ensures !OccursAt(n, ":", j) {
      assert n[j] == prefix[j];
    }
    FindFirst(n, ":", i);
    assert n[i + 1..] == " " + p;
    StripTrims(p);
    StripOfSpacesThen(" ", p);
  }

  lemma TranscriptPrefixColon()
    ensures |TranscriptPrefix| >= 1 && TranscriptPrefix[|TranscriptPrefix| - 1] == ':'
    ensures forall j :: 0 <= j < |TranscriptPrefix| - 1 ==> TranscriptPrefix[j] != ':'
    ensures !IsSpace(TranscriptPrefix[0]) && !Bullet(TranscriptPrefix[0])
  {
  }

  lemma AnalysisPrefixColon()
    ensures |AnalysisPrefix| >= 1 && AnalysisPrefix[|AnalysisPrefix| - 1] == ':'
    ensures forall j :: 0 <= j < |AnalysisPrefix| - 1 ==> AnalysisPrefix[j] != ':'
    ensures !IsSpace(AnalysisPrefix[0]) && !Bullet(AnalysisPrefix[0])
    ensures AnalysisPrefix[0] != TranscriptPrefix[0]
  {
  }

  /** The transcript line the pipeline prints, `  - 文字起こし Markdown: <path>`, or the same
      behind any other lead of white space and bullets, announces exactly that path, even
      one with a colon of its own. */
  lemma TranscriptPathOfLine(w1: string, b: string, w2: string, p: string)
    requires LineLead(w1, b, w2) && p != "" && Strip(p) == p
    ensures TranscriptPath(w1 + b + w2 + TranscriptPrefix + " " + p) == Some(p)
    ensures AnalysisPath(w1 + b + w2 + TranscriptPrefix + " " + p).None?
  {
    var body := TranscriptPrefix + " " + p;
    TranscriptPrefixColon();
    StripTrims(p);
    assert body[0] == TranscriptPrefix[0] && body[|body| - 1] == p[|p| - 1];
    assert w1 + b + w2 + TranscriptPrefix + " " + p == w1 + b + w2 + body;
    NormalizedOfLead(w1, b, w2, body);
    PathAfterPrefix(TranscriptPrefix, p);
  }

  /** The analysis line the pipeline prints, `  - Gemini 分析結果: <path>`, or the same behind
      any other lead, announces exactly that path unless it says it was not generated. */
  lemma AnalysisPathOfLine(w1: string, b: string, w2: string, p: string)
    requires LineLead(w1, b, w2) && p != "" && Strip(p) == p
    ensures AnalysisPath(w1 + b + w2 + AnalysisPrefix + " " + p)
         == if Contains(p, NotGeneratedMarker) then None else Some(p)
    ensures TranscriptPath(w1 + b + w2 + AnalysisPrefix + " " + p).None?
  {
    var body := AnalysisPrefix + " " + p;
    AnalysisPrefixColon();
    StripTrims(p);
    assert body[0] == AnalysisPrefix[0] && body[|body| - 1] == p[|p| - 1];
    assert w1 + b + w2 + AnalysisPrefix + " " + p == w1 + b + w2 + body;
    NormalizedOfLead(w1, b, w2, body);
    PathAfterPrefix(AnalysisPrefix, p);
    assert !StartsWith(body, TranscriptPrefix) by {
      if |TranscriptPrefix| <= |body| {
        assert body[..|TranscriptPrefix|][0] != TranscriptPrefix[0];
      }
    }
  }

  /** The lines the pipeline prints, `  - 文字起こし Markdown: <path>` and
      `  - Gemini 分析結果: <path>`, and the same with a `•` bullet or no lead at all,
      announce their path. */
  lemma PrintedPathLines(p: string)
    requires p != "" && Strip(p) == p
    ensures TranscriptPath("  - " + TranscriptPrefix + " " + p) == Some(p)
    ensures TranscriptPath("  • " + TranscriptPrefix + " " + p) == Some(p)
    ensures TranscriptPath(TranscriptPrefix + " " + p) == Some(p)
    ensures !Contains(p, NotGeneratedMarker) ==> AnalysisPath("  - " + AnalysisPrefix + " " + p) == Some(p)
    ensures !Contains(p, NotGeneratedMarker) ==> AnalysisPath("  • " + AnalysisPrefix + " " + p) == Some(p)
    ensures !Contains(p, NotGeneratedMarker) ==> AnalysisPath(AnalysisPrefix + " " + p) == Some(p)
  {
    DashLines(p);
    BulletLines(p);
    BareLines(p);
  }

  lemma DashLines(p: string)
    requires p != "" && Strip(p) == p
    ensures TranscriptPath("  - " + TranscriptPrefix + " " + p) == Some(p)
    ensures !Contains(p, NotGeneratedMarker) ==> AnalysisPath("  - " + AnalysisPrefix + " " + p) == Some(p)
  {
    assert LineLead("  ", "-", " ");
    assert "  " + "-" + " " == "  - ";
    TranscriptPathOfLine("  ", "-", " ", p);
    AnalysisPathOfLine("  ", "-", " ", p);
  }

  lemma BulletLines(p: string)
    requires p != "" && Strip(p) == p
    ensures TranscriptPath("  • " + TranscriptPrefix + " " + p) == Some(p)
    ensures !Contains(p, NotGeneratedMarker) ==> AnalysisPath("  • " + AnalysisPrefix + " " + p) == Some(p)
  {
    assert LineLead("  ", "•", " ");
    assert "  " + "•" + " " == "  • ";
    TranscriptPathOfLine("  ", "•", " ", p);
    AnalysisPathOfLine("  ", "•", " ", p);
  }

  lemma BareLines(p: string)
    requires p != "" && Strip(p) == p
    ensures TranscriptPath(TranscriptPrefix + " " + p) == Some(p)
    ensures !Contains(p, NotGeneratedMarker) ==> AnalysisPath(AnalysisPrefix + " " + p) == Some(p)
  {
    assert LineLead("", "", "");
    TranscriptPathOfLine("", "", "", p);
    assert "" + "" + "" + TranscriptPrefix == TranscriptPrefix;
    AnalysisPathOfLine("", "", "", p);
    assert "" + "" + "" + AnalysisPrefix == AnalysisPrefix;
  }

  /** A transcript written to a Windows path: the path's own colon is kept. */
  lemma TranscriptPathExample()
    ensures TranscriptPath("  - " + TranscriptPrefix + " " + "C:\\out.md") == Some("C:\\out.md")
  {
    var p := "C:\\out.md";
    StripOfTrimmed(p);
    PrintedPathLines(p);
  }

  /** The line a run prints when no analysis was written announces no analysis path. */
  lemma AnalysisNotGeneratedExample()
    ensures AnalysisPath("  - " + AnalysisPrefix + " " + "生成されていません。") == None
  {
    var p := "生成されていません。";
    StripOfTrimmed(p);
    assert p[..|NotGeneratedMarker|] == NotGeneratedMarker;
    assert Contains(p, NotGeneratedMarker);
    assert LineLead("  ", "-", " ");
    AnalysisPathOfLine("  ", "-", " ", p);
    assert "  " + "-" + " " == "  - ";
  }

  /** The paths a line announces, by the prefix of its normalised form. */
  lemma AnnouncedPaths(line: string)
    ensures var n := Normalized(Strip(line));
      var path := Strip(AfterColon(n));
      && TranscriptPath(line) == (if StartsWith(n, TranscriptPrefix) && path != "" then Some(path) else None)
      && AnalysisPath(line)
         == (if !StartsWith(n, TranscriptPrefix) && StartsWith(n, AnalysisPrefix) && path != ""
                && !Contains(path, NotGeneratedMarker) then Some(path) else None)
  {
  }

  /** The list with the path appended when there is one that is not yet in it. */
  function AddPath(paths: seq<string>, p: Option<string>): seq<string> {
    match p
    case None => paths
    case Some(x) => if x in paths then paths else paths + [x]
  }

  /** The paths the lines announce, in order. */
  function LinePaths(lines: seq<string>, announced: string -> Option<string>): seq<string>
    decreases |lines|
  {
    if lines == [] then []
    else match announced(lines[0])
      case None => LinePaths(lines[1..], announced)
      case Some(p) => [p] + LinePaths(lines[1..], announced)
  }

  /** The list after each path has been added in turn. */
  function AddAll(paths: seq<string>, ps: seq<string>): seq<string>
    decreases |ps|
  {
    if ps == [] then paths else AddAll(AddPath(paths, Some(ps[0])), ps[1..])
  }

  function Elems(xs: seq<string>): set<string> {
    set x | x in xs
  }

  /** Adding paths one by one keeps the first occurrence of each new path, in order. */
  lemma {:induction false} AddAllIsDedup(paths: seq<string>, ps: seq<string>)
    ensures AddAll(paths, ps) == paths + DedupFrom(ps, Exact, Elems(paths))
    decreases |ps|
  {
    if ps == [] {
      assert paths + [] == paths;
    } else {
      var x := ps[0];
      var next := AddPath(paths, Some(x));
      AddAllIsDedup(next, ps[1..]);
      if x in paths {
        assert Exact(x) in Elems(paths);
      } else {
        assert Exact(x) !in Elems(paths);
        assert Elems(next) == Elems(paths) + {Exact(x)};
        AppendAssoc(paths, [x], DedupFrom(ps[1..], Exact, Elems(next)));
      }
    }
  }

  /** The paths announced by the lines, from the first line on. */
  lemma LinePathsStep(lines: seq<string>, i: nat, announced: string -> Option<string>)
    requires i < |lines|
    ensures LinePaths(lines[i..], announced)
         == match announced(lines[i])
            case None => LinePaths(lines[i + 1..], announced)
            case Some(p) => [p] + LinePaths(lines[i + 1..], announced)
  {
    assert lines[i..][1..] == lines[i + 1..];
  }

  lemma AddAllStep(paths: seq<string>, p: Option<string>, rest: seq<string>)
    ensures AddAll(paths, (if p.Some? then [p.value] else []) + rest) == AddAll(AddPath(paths, p), rest)
  {
    if p.Some? {
      assert ([p.value] + rest)[1..] == rest;
    } else {
      assert [] + rest == rest;
    }
  }

  /** Each path of `ps` is announced by some line of `lines`. */
  predicate AllAnnounced(ps: seq<string>, lines: seq<string>, announced: string -> Option<string>) {
    forall k :: 0 <= k < |ps| ==> exists j :: 0 <= j < |lines| && announced(lines[j]) == Some(ps[k])
  }

  /** Every path a line announces comes from one such line. */
  lemma {:induction false} LinePathsFrom(lines: seq<string>, announced: string -> Option<string>)
    ensures AllAnnounced(LinePaths(lines, announced), lines, announced)
    decreases |lines|
  {
    if lines != [] {
      var rest := LinePaths(lines[1..], announced);
      LinePathsFrom(lines[1..], announced);
      forall k | 0 <= k < |rest| ensures exists j :: 0 <= j < |lines| && announced(lines[j]) == Some(rest[k]) {
        var j :| 0 <= j < |lines[1..]| && announced(lines[1..][j]) == Some(rest[k]);
        assert lines[1..][j] == lines[j + 1];
      }
      match announced(lines[0])
      case None =>
        assert LinePaths(lines, announced) == rest;
      case Some(p) =>
        var ps := [p] + rest;
        assert LinePaths(lines, announced) == ps;
        forall k | 0 <= k < |ps| ensures exists j :: 0 <= j < |lines| && announced(lines[j]) == Some(ps[k]) {
          if k == 0 {
            assert announced(lines[0]) == Some(ps[0]);
          } else {
            assert ps[k] == rest[k - 1];
          }
        }
    }
  }

  /** The two lists of result paths, reset at the start of every pipeline run. */
  class PipelineResults {
    var transcripts: seq<string>
    var analysisResults: seq<string>

    constructor()
      ensures transcripts == [] && analysisResults == []
    {
      transcripts := [];
      analysisResults := [];
    }

    /** `_process_pipeline_stdout_line`: a blank line changes nothing; otherwise the status
        message of the line is shown and an announced new path is added to its list. */
    method ProcessStdoutLine(line: string) returns (status: Option<string>)
      modifies this
      ensures status == StatusUpdate(line)
      ensures transcripts == AddPath(old(transcripts), TranscriptPath(line))
      ensures analysisResults == AddPath(old(analysisResults), AnalysisPath(line))
      ensures TranscriptPath(line).Some? ==> analysisResults == old(analysisResults)
    {
      var stripped := Strip(line);
      if stripped == "" {
        BlankLine(line);
        return None;
      }
      status := StatusUpdate(line);
      var normalized := Normalized(stripped);
      AnnouncedPaths(line);
      if StartsWith(normalized, TranscriptPrefix) {
        var path := Strip(AfterColon(normalized));
        if path != "" && path !in transcripts {
          transcripts := transcripts + [path];
        }
      } else if StartsWith(normalized, AnalysisPrefix) {
        var path := Strip(AfterColon(normalized));
        if path != "" && !Contains(path, NotGeneratedMarker) {
          if path !in analysisResults {
            analysisResults := analysisResults + [path];
          }
        }
      }
    }

    /** The loop over the subprocess's output lines. */
    method ProcessStdout(lines: seq<string>)
      modifies this
      ensures transcripts == AddAll(old(transcripts), LinePaths(lines, TranscriptPath))
      ensures analysisResults == AddAll(old(analysisResults), LinePaths(lines, AnalysisPath))
    {
      var i := 0;
      while i < |lines|
        invariant 0 <= i <= |lines|
        invariant AddAll(transcripts, LinePaths(lines[i..], TranscriptPath))
               == AddAll(old(transcripts), LinePaths(lines, TranscriptPath))
        invariant AddAll(analysisResults, LinePaths(lines[i..], AnalysisPath))
               == AddAll(old(analysisResults), LinePaths(lines, AnalysisPath))
      {
        LinePathsStep(lines, i, TranscriptPath);
        LinePathsStep(lines, i, AnalysisPath);
        AddAllStep(transcripts, TranscriptPath(lines[i]), LinePaths(lines[i + 1..], TranscriptPath));
        AddAllStep(analysisResults, AnalysisPath(lines[i]), LinePaths(lines[i + 1..], AnalysisPath));
        var _ := ProcessStdoutLine(lines[i]);
        i := i + 1;
      }
    }
  }

  /** Adding paths one by one to an empty list deduplicates them. */
  lemma AddAllFromEmpty(ps: seq<string>)
    ensures AddAll([], ps) == Dedup(ps, Exact)
  {
    AddAllIsDedup([], ps);
    assert Elems([]) == {};
    assert [] + Dedup(ps, Exact) == Dedup(ps, Exact);
  }

  /** Starting from an empty list, the recorded paths are the first occurrence of each
      announced path, none twice, each announced by some line. */
  lemma Recorded(lines: seq<string>, announced: string -> Option<string>)
    ensures var ts := AddAll([], LinePaths(lines, announced));
      && ts == Dedup(LinePaths(lines, announced), Exact)
      && (forall i, j :: 0 <= i < j < |ts| ==> ts[i] != ts[j])
      && (forall k :: 0 <= k < |ts| ==> exists j :: 0 <= j < |lines| && announced(lines[j]) == Some(ts[k]))
  {
    var ps := LinePaths(lines, announced);
    AddAllFromEmpty(ps);
    DedupKept(ps, Exact, {});
    LinePathsFrom(lines, announced);
    var ts := Dedup(ps, Exact);
    forall k | 0 <= k < |ts|
      ensures exists j :: 0 <= j < |lines| && announced(lines[j]) == Some(ts[k])
    {
      var m :| 0 <= m < |ps| && ps[m] == ts[k];
    }
  }

  /** After a run, each list holds every announced path once, in the order first announced;
      transcript paths are stripped and non-empty, and analysis paths never say they were
      not generated. */
  lemma RecordedPaths(lines: seq<string>)
    ensures var ts := AddAll([], LinePaths(lines, TranscriptPath));
      && ts == Dedup(LinePaths(lines, TranscriptPath), Exact)
      && (forall i, j :: 0 <= i < j < |ts| ==> ts[i] != ts[j])
      && (forall k :: 0 <= k < |ts| ==> ts[k] != "" && Strip(ts[k]) == ts[k])
    ensures var rs := AddAll([], LinePaths(lines, AnalysisPath));
      && rs == Dedup(LinePaths(lines, AnalysisPath), Exact)
      && (forall i, j :: 0 <= i < j < |rs| ==> rs[i] != rs[j])
      && (forall k :: 0 <= k < |rs| ==> rs[k] != "" && !Contains(rs[k], NotGeneratedMarker))
  {
    Recorded(lines, TranscriptPath);
    Recorded(lines, AnalysisPath);
    var ts := AddAll([], LinePaths(lines, TranscriptPath));
    forall k | 0 <= k < |ts| ensures ts[k] != "" && Strip(ts[k]) == ts[k] {
      var j :| 0 <= j < |lines| && TranscriptPath(lines[j]) == Some(ts[k]);
    }
    var rs := AddAll([], LinePaths(lines, AnalysisPath));
    forall k | 0 <= k < |rs| ensures rs[k] != "" && !Contains(rs[k], NotGeneratedMarker) {
      var j :| 0 <= j < |lines| && AnalysisPath(lines[j]) == Some(rs[k]);
    }
  }

  // ---------------------------------------------------------------------------------------
  // Sponsored-ad URLs

  /** `(ad.get("url") or "").strip()`: an ad without a URL gives "". */
  function AdUrl(ad: Option<string>): string {
    Strip(ad.GetOr(""))
  }

  /** The non-empty stripped URLs of the ads, in order. */
  function StrippedUrls(ads: seq<Option<string>>): seq<string>
    decreases |ads|
  {
    if ads == [] then []
    else if AdUrl(ads[0]) == "" then StrippedUrls(ads[1..])
    else [AdUrl(ads[0])] + StrippedUrls(ads[1..])
  }

  /** The URLs added from the ads: the first occurrence of each non-empty stripped URL. */
  function AdUrls(ads: seq<Option<string>>): seq<string> {
    Dedup(StrippedUrls(ads), Exact)
  }

  /** The loop over the extracted ads; `count` is `ads_url_count`. */
  method CollectAdUrls(ads: seq<Option<string>>) returns (adUrls: seq<string>, count: nat)
    ensures adUrls == AdUrls(ads) && count == |adUrls|
  {
    var seen: set<string> := {};
    adUrls := [];
    var i := 0;
    while i < |ads|
      invariant 0 <= i <= |ads|
      invariant adUrls + DedupFrom(StrippedUrls(ads[i..]), Exact, seen) == AdUrls(ads)
    {
      var url := AdUrl(ads[i]);
      var rest := StrippedUrls(ads[i + 1..]);
      assert ads[i..][1..] == ads[i + 1..];
      if url != "" {
        assert StrippedUrls(ads[i..]) == [url] + rest;
        assert ([url] + rest)[1..] == rest;
        if url !in seen {
          AppendAssoc(adUrls, [url], DedupFrom(rest, Exact, seen + {url}));
          seen := seen + {url};
          adUrls := adUrls + [url];
        }
      }
      i := i + 1;
    }
    count := |adUrls|;
  }

  /** Every URL in the stripped list is the non-empty URL of some ad, and back. */
  lemma {:induction false} StrippedUrlsOf(ads: seq<Option<string>>)
    ensures forall u :: u in StrippedUrls(ads) <==> u != "" && exists j :: 0 <= j < |ads| && AdUrl(ads[j]) == u
    decreases |ads|
  {
    if ads != [] {
      StrippedUrlsOf(ads[1..]);
      forall u | u != "" && (exists j :: 0 <= j < |ads| && AdUrl(ads[j]) == u)
        ensures u in StrippedUrls(ads)
      {
        var j :| 0 <= j < |ads| && AdUrl(ads[j]) == u;
        if j > 0 {
          assert AdUrl(ads[1..][j - 1]) == u;
        }
      }
      forall u | u in StrippedUrls(ads)
        ensures u != "" && exists j :: 0 <= j < |ads| && AdUrl(ads[j]) == u
      {
        if u in StrippedUrls(ads[1..]) {
          var j :| 0 <= j < |ads[1..]| && AdUrl(ads[1..][j]) == u;
          assert AdUrl(ads[j + 1]) == u;
        } else {
          assert AdUrl(ads[0]) == u;
        }
      }
    }
  }

  /** The added URLs are non-empty and stripped, none twice, and every ad's non-empty
      stripped URL is among them. */
  lemma AdUrlsShape(ads: seq<Option<string>>)
    ensures var us := AdUrls(ads);
      && (forall i, j :: 0 <= i < j < |us| ==> us[i] != us[j])
      && (forall k :: 0 <= k < |us| ==> us[k] != "" && Strip(us[k]) == us[k])
      && (forall j :: 0 <= j < |ads| && AdUrl(ads[j]) != "" ==> AdUrl(ads[j]) in us)
  {
    var xs := StrippedUrls(ads);
    var us := AdUrls(ads);
    StrippedUrlsOf(ads);
    DedupKept(xs, Exact, {});
    DedupCovers(xs, Exact, {});
    forall k | 0 <= k < |us| ensures us[k] != "" && Strip(us[k]) == us[k] {
      var j :| 0 <= j < |ads| && AdUrl(ads[j]) == us[k];
      StripIdempotent(ads[j].GetOr(""));
    }
    forall j | 0 <= j < |ads| && AdUrl(ads[j]) != "" ensures AdUrl(ads[j]) in us {
      assert AdUrl(ads[j]) in xs;
      var y :| y in us && Exact(y) == Exact(AdUrl(ads[j]));
    }
  }

  /** The URL list written to the temporary file: the typed URLs, ended with a newline when
      they are not already, then one ad URL per line. */
  function UrlFileText(manual: string, adUrls: seq<string>): (r: string)
    ensures StartsWith(r, manual) && EndsWith(r, "\n")
  {
    var head := if manual != "" && !EndsWith(manual, "\n") then manual + "\n" else manual;
    head + Join(adUrls, "\n") + "\n"
  }

  /** The lines after the typed URLs are the ad URLs, one per line, when no URL holds a newline. */
  lemma UrlFileLines(manual: string, adUrls: seq<string>)
    requires adUrls != []
    requires forall k :: 0 <= k < |adUrls| ==> Avoids(adUrls[k], {'\n'})
    ensures var r := UrlFileText(manual, adUrls);
      var head := |r| - |Join(adUrls, "\n")| - 1;
      0 <= head && Split(r[head..|r| - 1], {'\n'}) == adUrls
  {
    var r := UrlFileText(manual, adUrls);
    var head := if manual != "" && !EndsWith(manual, "\n") then manual + "\n" else manual;
    assert r == head + Join(adUrls, "\n") + "\n";
    assert r[|head|..|r| - 1] == Join(adUrls, "\n");
    SplitJoin(adUrls, '\n');
  }

  // ---------------------------------------------------------------------------------------
  // The pipeline command

  /** The entries of the run's settings that the command is built from. `tempUrlFile` is set
      only when ad URLs were written to a temporary file. */
  datatype Config = Config(
    singleMode: bool, url: Option<string>, urlList: Option<string>, tempUrlFile: Option<string>,
    keyword: string, conversionGoal: string, sliceHeight: int, overlap: int, geminiModel: string,
    useSeo: bool, seoLimit: int, skipGemini: bool, skipSummary: bool, summaryOutput: Option<string>)

  /** A setting that is present and not the empty string (Python truthiness). */
  predicate Given(o: Option<string>) {
    o.Some? && o.value != ""
  }

  /** Python's `a or b` on two settings. */
  function Or(a: Option<string>, b: Option<string>): Option<string> {
    if Given(a) then a else b
  }

  /** The URL argument of the command. */
  function UrlArg(c: Config): (r: seq<string>)
    ensures r == [] || (|r| == 2 && r[1] != "" && (r[0] == "--url-list" || r[0] == "--url"))
  {
    var list := Or(c.tempUrlFile, c.urlList);
    var single := if c.singleMode then c.url else None;
    if Given(list) then ["--url-list", list.value]
    else if Given(single) then ["--url", single.value]
    else []
  }

  /** The URL file the pipeline is given takes precedence over the single URL, the
      temporary file over the chosen URL list, and the single URL is used only in single
      mode. */
  lemma UrlArgPriority(c: Config)
    ensures Given(c.tempUrlFile) ==> UrlArg(c) == ["--url-list", c.tempUrlFile.value]
    ensures !Given(c.tempUrlFile) && Given(c.urlList) ==> UrlArg(c) == ["--url-list", c.urlList.value]
    ensures !Given(c.tempUrlFile) && !Given(c.urlList) ==>
              UrlArg(c) == if c.singleMode && Given(c.url) then ["--url", c.url.value] else []
    ensures UrlArg(c) == [] <==> !Given(c.tempUrlFile) && !Given(c.urlList) && !(c.singleMode && Given(c.url))
  {
  }

  function SeoArgs(c: Config): seq<string> {
    if c.useSeo then ["--use-seo", "--seo-limit", IntToDecimal(c.seoLimit)] else []
  }

  function Flag(on: bool, name: string): seq<string> {
    if on then [name] else []
  }

  function SummaryArgs(c: Config): seq<string> {
    var s := Strip(c.summaryOutput.GetOr(""));
    if s != "" then ["--summary-output", s] else []
  }

  /** The fixed start of the command. */
  function CommandPrefix(exe: string, script: string, c: Config): (r: seq<string>)
    ensures |r| == 12
  {
    [exe, script, "--keyword", c.keyword, "--conversion-goal", c.conversionGoal,
     "--slice-height", IntToDecimal(c.sliceHeight), "--overlap", IntToDecimal(c.overlap),
     "--gemini-model", c.geminiModel]
  }

  /** The command of the pipeline run: the fixed start, then each optional group in turn. */
  function Command(exe: string, script: string, c: Config): seq<string> {
    CommandPrefix(exe, script, c) + UrlArg(c) + SeoArgs(c)
    + Flag(c.skipGemini, "--skip-gemini") + Flag(c.skipSummary, "--skip-summary") + SummaryArgs(c)
  }

  /** The command assembly of `_run_full_pipeline_task`: nothing when there is no URL to
      process and no search to run, the command otherwise. */
  method BuildCommand(exe: string, script: string, c: Config) returns (r: Option<seq<string>>)
    ensures r.None? <==> UrlArg(c) == [] && !c.useSeo
    ensures r.Some? ==> r.value == Command(exe, script, c)
  {
    var urlArg := UrlArg(c);
    if urlArg == [] && !c.useSeo {
      return None;
    }
    var command := CommandPrefix(exe, script, c);
    if urlArg != [] {
      command := command + urlArg;
    }
    assert command == CommandPrefix(exe, script, c) + UrlArg(c);
    if c.useSeo {
      command := command + ["--use-seo"];
      command := command + ["--seo-limit", IntToDecimal(c.seoLimit)];
    }
    assert command == CommandPrefix(exe, script, c) + UrlArg(c) + SeoArgs(c);
    if c.skipGemini {
      command := command + ["--skip-gemini"];
    }
    if c.skipSummary {
      command := command + ["--skip-summary"];
    }
    assert command == CommandPrefix(exe, script, c) + UrlArg(c) + SeoArgs(c)
                      + Flag(c.skipGemini, "--skip-gemini") + Flag(c.skipSummary, "--skip-summary");
    var summaryOutput := Strip(c.summaryOutput.GetOr(""));
    if summaryOutput != "" {
      command := command + ["--summary-output", summaryOutput];
    }
    return Some(command);
  }

  /** Where the arguments sit: the numbers at their flags, the URL argument right after the
      fixed start, and the search options right after it when the search is on. */
  lemma CommandPositions(exe: string, script: string, c: Config)
    ensures var cmd := Command(exe, script, c);
      var u := |UrlArg(c)|;
      && |cmd| >= 12 + u
      && cmd[6] == "--slice-height" && cmd[7] == IntToDecimal(c.sliceHeight)
      && cmd[8] == "--overlap" && cmd[9] == IntToDecimal(c.overlap)
      && cmd[12..12 + u] == UrlArg(c)
      && cmd[12 + u..] == SeoArgs(c) + Flag(c.skipGemini, "--skip-gemini")
                          + Flag(c.skipSummary, "--skip-summary") + SummaryArgs(c)
  {
    var p := CommandPrefix(exe, script, c);
    GroupsInPlace(p, UrlArg(c), SeoArgs(c), Flag(c.skipGemini, "--skip-gemini"),
                  Flag(c.skipSummary, "--skip-summary"), SummaryArgs(c));
    var cmd := Command(exe, script, c);
    assert cmd[..12] == p;
    assert cmd[6] == p[6] && cmd[7] == p[7] && cmd[8] == p[8] && cmd[9] == p[9];
  }

  /** A sequence built by appending groups one after another holds each group in place. */
  lemma GroupsInPlace<T>(p: seq<T>, u: seq<T>, g1: seq<T>, g2: seq<T>, g3: seq<T>, g4: seq<T>)
    ensures var all := p + u + g1 + g2 + g3 + g4;
      && all[..|p|] == p
      && all[|p|..|p| + |u|] == u
      && all[|p| + |u|..] == g1 + g2 + g3 + g4
  {
    var all := p + u + g1 + g2 + g3 + g4;
    assert all == p + (u + (g1 + g2 + g3 + g4));
  }

  /** The pipeline reads the band height, the overlap and the search limit back as the
      numbers the form accepted, each after its flag. */
  lemma CommandArguments(exe: string, script: string, c: Config)
    ensures var cmd := Command(exe, script, c);
      var u := |UrlArg(c)|;
      && |cmd| >= 12 + u
      && cmd[6] == "--slice-height" && ParseIntLiteral(cmd[7]) == Some(c.sliceHeight)
      && cmd[8] == "--overlap" && ParseIntLiteral(cmd[9]) == Some(c.overlap)
      && (c.useSeo ==> |cmd| >= 15 + u && cmd[12 + u] == "--use-seo" && cmd[13 + u] == "--seo-limit"
                       && ParseIntLiteral(cmd[14 + u]) == Some(c.seoLimit))
  {
    CommandPositions(exe, script, c);
    var cmd := Command(exe, script, c);
    var u := |UrlArg(c)|;
    if c.useSeo {
      assert cmd[12 + u..][..3] == SeoArgs(c);
      assert cmd[14 + u] == IntToDecimal(c.seoLimit);
      ParseIntRoundTrip(c.seoLimit);
    }
    ParseIntRoundTrip(c.sliceHeight);
    ParseIntRoundTrip(c.overlap);
  }

  /** The last group of the command is the summary output when one is given. */
  lemma CommandEndsWithSummary(exe: string, script: string, c: Config)
    requires Strip(c.summaryOutput.GetOr("")) != ""
    ensures var cmd := Command(exe, script, c);
      |cmd| >= 14 && cmd[|cmd| - 2..] == ["--summary-output", Strip(c.summaryOutput.GetOr(""))]
  {
  }
}
