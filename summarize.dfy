/** The consolidated report over several runs: the runs whose Gemini analysis exists are
    collected in name order, their analyses are put into one prompt, and the text of the
    model's reply is the report. */
module Summarize {
  import opened Results
  import opened Strings
  import opened Decimal
  import opened Sorting
  import opened Page

  // ---------------------------------------------------------------------------------------
  // extract_url_from_analysis_request

  const UrlMarker: string := "**URL:**"
  const NotAvailable: string := "N/A"

  /** The first line that starts with the URL marker once stripped. */
  function FirstMarkedLine(lines: seq<string>, marker: string): (r: Option<nat>)
    ensures r.Some? ==> r.value < |lines| && StartsWith(Strip(lines[r.value]), marker)
    ensures forall j :: 0 <= j < |lines| && (r.None? || j < r.value) ==> !StartsWith(Strip(lines[j]), marker)
    decreases |lines|
  {
    if lines == [] then None
    else if StartsWith(Strip(lines[0]), marker) then Some(0)
    else
      var rest := FirstMarkedLine(lines[1..], marker);
      assert forall j :: 1 <= j < |lines| ==> lines[j] == lines[1..][j - 1];
      match rest
      case None => None
      case Some(i) => Some(i + 1)
  }

  /** Python's `line.split(marker, 1)[-1]`: what follows the first occurrence of the marker,
      or the whole line when there is none. */
  function AfterFirst(line: string, marker: string): string {
    match Find(line, marker)
    case None => line
    case Some(i) => line[i + |marker|..]
  }

  /** `extract_url_from_analysis_request`: `request` is the text of the request file, `None`
      when the file does not exist. */
  function ExtractUrlFromRequest(request: Option<string>): string {
    match request
    case None => NotAvailable
    case Some(text) =>
      var lines := Split(text, LineBreaks);
      match FirstMarkedLine(lines, UrlMarker)
      case None => NotAvailable
      case Some(i) => Strip(AfterFirst(Strip(lines[i]), UrlMarker))
  }

  /** A line that starts with the marker has its first occurrence at the start. */
  lemma FindAtStart(s: string, pat: string)
    requires StartsWith(s, pat)
    ensures Find(s, pat) == Some(0)
  {
    assert s[0..|pat|] == pat;
    assert OccursAt(s, pat, 0);
  }

  /** The URL is "N/A" when the file is missing or no line carries the marker; otherwise it
      is the stripped rest of the first line that does. */
  lemma ExtractUrlCases(request: Option<string>)
    ensures request.None? ==> ExtractUrlFromRequest(request) == NotAvailable
    ensures request.Some? ==>
      var lines := Split(request.value, LineBreaks);
      && (FirstMarkedLine(lines, UrlMarker).None? ==> ExtractUrlFromRequest(request) == NotAvailable)
      && (FirstMarkedLine(lines, UrlMarker).Some? ==>
            var line := Strip(lines[FirstMarkedLine(lines, UrlMarker).value]);
            ExtractUrlFromRequest(request) == Strip(line[|UrlMarker|..]))
  {
    if request.Some? {
      var lines := Split(request.value, LineBreaks);
      if FirstMarkedLine(lines, UrlMarker).Some? {
        FindAtStart(Strip(lines[FirstMarkedLine(lines, UrlMarker).value]), UrlMarker);
      }
    }
  }

  lemma HeaderLineAvoidsBreaks(u: string)
    requires Avoids(u, LineBreaks)
    ensures Avoids(UrlMarker + " " + u, LineBreaks)
  {
    var x := UrlMarker + " " + u;
    forall i | 0 <= i < |x| ensures x[i] !in LineBreaks {
      if i >= |UrlMarker| + 1 {
        assert x[i] == u[i - |UrlMarker| - 1];
      }
    }
  }

  /** A line without line breaks followed by a newline is the first line of the text. */
  lemma FirstLineOf(line: string, rest: string)
    requires Avoids(line, LineBreaks)
    ensures Split(line + "\n" + rest, LineBreaks)[0] == line
  {
    assert line + "\n" + rest == line + ("\n" + rest);
    SplitPrefix(line, "\n" + rest, LineBreaks);
    assert ("\n" + rest)[0] == '\n' && ("\n" + rest)[1..] == rest;
    assert Split("\n" + rest, LineBreaks)[0] == "";
    assert line + "" == line;
  }

  /** The header line `**URL:** u` is its own stripped form and carries `u` after the marker. */
  lemma HeaderLine(u: string)
    requires u != "" && Strip(u) == u
    ensures var line := UrlMarker + " " + u;
      Strip(line) == line && StartsWith(line, UrlMarker) && Strip(AfterFirst(line, UrlMarker)) == u
  {
    var line := UrlMarker + " " + u;
    StripTrims(u);
    assert line[|line| - 1] == u[|u| - 1];
    StripOfTrimmed(line);
    assert line[..|UrlMarker|] == UrlMarker;
    FindAtStart(line, UrlMarker);
    assert line[|UrlMarker|..] == " " + u;
    assert (" " + u)[1..] == u;
  }

  /** A request whose first line is `**URL:** u` gives back `u`. */
  lemma RequestUrlRoundTrip(u: string, rest: string)
    requires u != "" && Strip(u) == u && Avoids(u, LineBreaks)
    ensures ExtractUrlFromRequest(Some(UrlMarker + " " + u + "\n" + rest)) == u
  {
    var line := UrlMarker + " " + u;
    HeaderLineAvoidsBreaks(u);
    FirstLineOf(line, rest);
    HeaderLine(u);
    var lines := Split(line + "\n" + rest, LineBreaks);
    assert FirstMarkedLine(lines, UrlMarker) == Some(0);
  }

  // ---------------------------------------------------------------------------------------
  // collect_analysis_entries

  /** A directory entry of the runs directory, with the texts of the run's analysis and
      request files (`None` when the file does not exist). */
  datatype RunDir = RunDir(name: string, isDirectory: bool, analysis: Option<string>, request: Option<string>)

  datatype Entry = Entry(runDir: string, url: string, analysisPath: string, analysisText: string)

  const RunPrefix: string := "run_"
  const AnalysisFile: string := "analysis_result_gemini.md"

  predicate IsRunDir(d: RunDir) {
    d.isDirectory && StartsWith(d.name, RunPrefix)
  }

  /** The run directories among the entries, in listing order. */
  function RunDirsIn(listing: seq<RunDir>): (r: seq<RunDir>)
    ensures forall k :: 0 <= k < |r| ==> IsRunDir(r[k]) && r[k] in listing
    ensures forall d :: d in listing && IsRunDir(d) ==> d in r
    decreases |listing|
  {
    if listing == [] then []
    else
      var rest := RunDirsIn(listing[1..]);
      assert forall d :: d in listing ==> d == listing[0] || d in listing[1..];
      if IsRunDir(listing[0]) then [listing[0]] + rest else rest
  }

  /** The order of `sorted(..., key=lambda p: p.name)`. */
  function ByName(): (RunDir, RunDir) -> bool {
    (a: RunDir, b: RunDir) => StrLe(a.name, b.name)
  }

  /** The run directories sorted by name. */
  function SortedRunDirs(listing: seq<RunDir>): seq<RunDir> {
    SortBy(RunDirsIn(listing), ByName())
  }

  /** Python's normalisation of a slice start: a negative start counts from the end, and
      the result is clamped to the list. */
  function SliceStart(start: int, n: nat): (r: nat)
    ensures r <= n
  {
    if start < 0 then (if start + n < 0 then 0 else start + n)
    else if start > n then n
    else start
  }

  /** `run_dirs[-latest:]` when `latest` is given. */
  function Latest<T>(xs: seq<T>, latest: Option<int>): (r: seq<T>)
    ensures |r| <= |xs| && r == xs[|xs| - |r|..]
  {
    match latest
    case None => xs
    case Some(k) => xs[SliceStart(-k, |xs|)..]
  }

  /** The entry of a run whose analysis exists; its paths are joined by `ChildPath`, which
      stands for `pathlib`'s `/` on a plain directory name. */
  function EntryOf(runsDir: string, d: RunDir): Entry
    requires d.analysis.Some?
  {
    var dir := ChildPath(runsDir, d.name);
    Entry(dir, ExtractUrlFromRequest(d.request), ChildPath(dir, AnalysisFile), Strip(d.analysis.value))
  }

  /** The entries of the runs whose analysis exists, in the order of the runs. */
  function Entries(runsDir: string, dirs: seq<RunDir>): (r: seq<Entry>)
    ensures |r| <= |dirs|
    decreases |dirs|
  {
    if dirs == [] then []
    else if dirs[0].analysis.None? then Entries(runsDir, dirs[1..])
    else [EntryOf(runsDir, dirs[0])] + Entries(runsDir, dirs[1..])
  }

  /** `collect_analysis_entries`: `listing` is what `iterdir` yields, in any order. */
  method CollectAnalysisEntries(runsDir: string, listing: seq<RunDir>, latest: Option<int>)
    returns (entries: seq<Entry>)
    ensures entries == Entries(runsDir, Latest(SortedRunDirs(listing), latest))
  {
    var runDirs := SortBy(RunDirsIn(listing), ByName());
    if latest.Some? {
      runDirs := runDirs[SliceStart(-latest.value, |runDirs|)..];
    }
    entries := [];
    var i := 0;
    while i < |runDirs|
      invariant 0 <= i <= |runDirs|
      invariant entries + Entries(runsDir, runDirs[i..]) == Entries(runsDir, runDirs)
    {
      EntriesStep(runsDir, runDirs, i, entries);
      if runDirs[i].analysis.Some? {
        entries := entries + [EntryOf(runsDir, runDirs[i])];
      }
      i := i + 1;
    }
    assert runDirs[|runDirs|..] == [];
    assert entries + [] == entries;
  }

  /** One step of the loop over the run directories. */
  lemma EntriesStep(runsDir: string, dirs: seq<RunDir>, i: nat, acc: seq<Entry>)
    requires i < |dirs|
    ensures dirs[i].analysis.None? ==> acc + Entries(runsDir, dirs[i..]) == acc + Entries(runsDir, dirs[i + 1..])
    ensures dirs[i].analysis.Some? ==>
      acc + Entries(runsDir, dirs[i..]) == (acc + [EntryOf(runsDir, dirs[i])]) + Entries(runsDir, dirs[i + 1..])
  {
    assert dirs[i..][0] == dirs[i] && dirs[i..][1..] == dirs[i + 1..];
  }

  /** `latest` absent or 0 keeps every run; a positive `latest` keeps that many of the last
      runs (all of them when there are fewer); a negative one drops that many first runs. */
  lemma LatestCases<T>(xs: seq<T>, latest: Option<int>)
    ensures latest.None? || latest == Some(0) ==> Latest(xs, latest) == xs
    ensures latest.Some? && latest.value > 0 ==> |Latest(xs, latest)| == if latest.value < |xs| then latest.value else |xs|
    ensures latest.Some? && latest.value < 0 ==> |Latest(xs, latest)| == if |xs| + latest.value < 0 then 0 else |xs| + latest.value
  {
  }

  /** The run directories are exactly the run directories of the listing, each once per
      listing entry, sorted by name. */
  lemma SortedRunDirsShape(listing: seq<RunDir>)
    ensures var ds := SortedRunDirs(listing);
      && SortedBy(ds, ByName())
      && multiset(ds) == multiset(RunDirsIn(listing))
      && (forall k :: 0 <= k < |ds| ==> IsRunDir(ds[k]) && ds[k] in listing)
      && (forall d :: d in listing && IsRunDir(d) ==> d in ds)
  {
    var ds := SortedRunDirs(listing);
    var rs := RunDirsIn(listing);
    StringOrders();
    assert Total(ByName()) && Transitive(ByName()) by {
      forall a: RunDir, b: RunDir ensures ByName()(a, b) || ByName()(b, a) {
        StrLeTotalAt(a.name, b.name);
      }
      forall a: RunDir, b: RunDir, c: RunDir | ByName()(a, b) && ByName()(b, c) ensures ByName()(a, c) {
        StrLeTransitiveAt(a.name, b.name, c.name);
      }
    }
    SortBySorted(rs, ByName());
    forall k | 0 <= k < |ds| ensures IsRunDir(ds[k]) && ds[k] in listing {
      assert ds[k] in multiset(ds);
      assert ds[k] in rs;
    }
    forall d | d in listing && IsRunDir(d) ensures d in ds {
      assert d in multiset(rs);
    }
  }

  /** Every entry is the entry of a run whose analysis exists, and every such run has one. */
  lemma {:induction false} EntriesFrom(runsDir: string, dirs: seq<RunDir>)
    ensures forall e :: e in Entries(runsDir, dirs) ==>
      exists d :: d in dirs && d.analysis.Some? && e == EntryOf(runsDir, d)
    ensures forall d :: d in dirs && d.analysis.Some? ==> EntryOf(runsDir, d) in Entries(runsDir, dirs)
    decreases |dirs|
  {
    if dirs != [] {
      EntriesFrom(runsDir, dirs[1..]);
      assert forall d :: d in dirs ==> d == dirs[0] || d in dirs[1..];
      assert forall d :: d in dirs[1..] ==> d in dirs;
    }
  }

  /** Python's `<=` on strings is unchanged by a common prefix. */
  lemma {:induction false} StrLeCommonPrefix(p: string, a: string, b: string)
    ensures StrLe(p + a, p + b) == StrLe(a, b)
    decreases |p|
  {
    if p == [] {
      assert p + a == a && p + b == b;
    } else {
      assert (p + a)[1..] == p[1..] + a && (p + b)[1..] == p[1..] + b;
      StrLeCommonPrefix(p[1..], a, b);
    }
  }

  /** The order of `sorted` kept by the entries: by run directory. */
  function ByRunDir(): (Entry, Entry) -> bool {
    (a: Entry, b: Entry) => StrLe(a.runDir, b.runDir)
  }

  /** Runs taken in name order give entries in the same order. */
  lemma {:induction false} EntriesInOrder(runsDir: string, dirs: seq<RunDir>)
    requires SortedBy(dirs, ByName())
    ensures SortedBy(Entries(runsDir, dirs), ByRunDir())
    decreases |dirs|
  {
    if dirs != [] {
      var rest := Entries(runsDir, dirs[1..]);
      EntriesInOrder(runsDir, dirs[1..]);
      if dirs[0].analysis.Some? {
        var e0 := EntryOf(runsDir, dirs[0]);
        FirstEntryFirst(runsDir, dirs);
        ConsSorted(e0, rest, ByRunDir());
      }
    }
  }

  /** The entry of the first run comes before the entries of the later ones. */
  lemma FirstEntryFirst(runsDir: string, dirs: seq<RunDir>)
    requires SortedBy(dirs, ByName()) && dirs != [] && dirs[0].analysis.Some?
    ensures forall e :: e in Entries(runsDir, dirs[1..]) ==> ByRunDir()(EntryOf(runsDir, dirs[0]), e)
  {
    EntriesFrom(runsDir, dirs[1..]);
    forall e | e in Entries(runsDir, dirs[1..]) ensures ByRunDir()(EntryOf(runsDir, dirs[0]), e) {
      var d :| d in dirs[1..] && d.analysis.Some? && e == EntryOf(runsDir, d);
      var m :| 0 <= m < |dirs[1..]| && dirs[1..][m] == d;
      assert StrLe(dirs[0].name, dirs[m + 1].name);
      StrLeCommonPrefix(runsDir + "/", dirs[0].name, d.name);
    }
  }

  /** A sorted list stays sorted behind an element that comes before all of it. */
  lemma ConsSorted<T>(x: T, xs: seq<T>, le: (T, T) -> bool)
    requires SortedBy(xs, le) && forall y :: y in xs ==> le(x, y)
    ensures SortedBy([x] + xs, le)
  {
    var r := [x] + xs;
    forall i, j | 0 <= i < j < |r| ensures le(r[i], r[j]) {
      assert r[j] == xs[j - 1];
      if i > 0 {
        assert r[i] == xs[i - 1];
      }
    }
  }

  /** A suffix of a sorted list is sorted. */
  lemma SuffixSorted<T>(xs: seq<T>, n: nat, le: (T, T) -> bool)
    requires n <= |xs| && SortedBy(xs, le)
    ensures SortedBy(xs[n..], le)
  {
    forall i, j | 0 <= i < j < |xs[n..]| ensures le(xs[n..][i], xs[n..][j]) {
      assert xs[n..][i] == xs[n + i] && xs[n..][j] == xs[n + j];
    }
  }

  /** The collected entries are the entries of the run directories with an analysis, in
      name order, one for each. */
  lemma CollectedEntries(runsDir: string, listing: seq<RunDir>, latest: Option<int>)
    ensures var kept := Latest(SortedRunDirs(listing), latest);
      var es := Entries(runsDir, kept);
      && SortedBy(es, ByRunDir())
      && (forall e :: e in es ==> exists d :: d in kept && IsRunDir(d) && d in listing && d.analysis.Some? && e == EntryOf(runsDir, d))
      && (forall d :: d in kept && d.analysis.Some? ==> EntryOf(runsDir, d) in es)
  {
    var kept := Latest(SortedRunDirs(listing), latest);
    LatestRunDirs(listing, latest);
    EntriesInOrder(runsDir, kept);
    EntriesFrom(runsDir, kept);
  }

  /** The kept run directories are run directories of the listing, in name order. */
  lemma LatestRunDirs(listing: seq<RunDir>, latest: Option<int>)
    ensures var kept := Latest(SortedRunDirs(listing), latest);
      && SortedBy(kept, ByName())
      && forall d :: d in kept ==> IsRunDir(d) && d in listing
  {
    var ds := SortedRunDirs(listing);
    var kept := Latest(ds, latest);
    SortedRunDirsShape(listing);
    SuffixSorted(ds, |ds| - |kept|, ByName());
    SuffixMembers(ds, |ds| - |kept|);
  }

  /** Every element of a suffix is an element of the whole. */
  lemma SuffixMembers<T>(xs: seq<T>, n: nat)
    requires n <= |xs|
    ensures forall d :: d in xs[n..] ==> exists k :: 0 <= k < |xs| && xs[k] == d
  {
    forall d | d in xs[n..] ensures exists k :: 0 <= k < |xs| && xs[k] == d {
      var j :| 0 <= j < |xs[n..]| && xs[n..][j] == d;
      assert xs[n + j] == d;
    }
  }

  // ---------------------------------------------------------------------------------------
  // build_prompt

  const Placeholder: string := "{{ANALYSES}}"

  function TemplateMissing(templatePath: string): string {
    "prompt template not found: " + templatePath
  }

  /** `f"### サイト {idx}"` */
  function Header(idx: nat): string {
    "### サイト " + NatToDecimal(idx)
  }

  function UrlLine(url: string): string {
    "- URL: " + url
  }

  function FileLine(path: string): string {
    "- 分析ファイル: " + path
  }

  /** The block of one entry. */
  function Block(idx: nat, e: Entry): string {
    Join([Header(idx), UrlLine(e.url), FileLine(e.analysisPath), "", e.analysisText], "\n")
  }

  /** The blocks of the entries, numbered from `start`. */
  function Blocks(entries: seq<Entry>, start: nat): (r: seq<string>)
    ensures |r| == |entries|
    decreases |entries|
  {
    if entries == [] then [] else [Block(start, entries[0])] + Blocks(entries[1..], start + 1)
  }

  /** The prompt: every placeholder in the template replaced by the blocks, joined by a blank line. */
  function PromptText(template: string, entries: seq<Entry>): string {
    ReplaceAll(template, Placeholder, Join(Blocks(entries, 1), "\n\n"))
  }

  /** `build_prompt`: `template` is the template's text, `None` when the file does not exist. */
  method BuildPrompt(templatePath: string, template: Option<string>, entries: seq<Entry>)
    returns (r: Result<string, string>)
    ensures template.None? ==> r == Failure(TemplateMissing(templatePath))
    ensures template.Some? ==> r == Success(PromptText(template.value, entries))
  {
    if template.None? {
      return Failure(TemplateMissing(templatePath));
    }
    var parts: seq<string> := [];
    var i := 0;
    while i < |entries|
      invariant 0 <= i <= |entries|
      invariant parts + Blocks(entries[i..], i + 1) == Blocks(entries, 1)
    {
      assert entries[i..][1..] == entries[i + 1..];
      var block := Block(i + 1, entries[i]);
      assert parts + Blocks(entries[i..], i + 1) == (parts + [block]) + Blocks(entries[i + 1..], i + 2);
      parts := parts + [block];
      i := i + 1;
    }
    assert entries[|entries|..] == [];
    assert parts + [] == parts;
    return Success(ReplaceAll(template.value, Placeholder, Join(parts, "\n\n")));
  }

  /** Block `k` is the block of entry `k`, numbered `start + k`. */
  lemma {:induction false} BlocksNumbered(entries: seq<Entry>, start: nat)
    ensures forall k :: 0 <= k < |entries| ==> Blocks(entries, start)[k] == Block(start + k, entries[k])
    decreases |entries|
  {
    if entries != [] {
      var rest := Blocks(entries[1..], start + 1);
      BlocksNumbered(entries[1..], start + 1);
      assert Blocks(entries, start) == [Block(start, entries[0])] + rest;
      forall k | 1 <= k < |entries| ensures Blocks(entries, start)[k] == Block(start + k, entries[k]) {
        assert Blocks(entries, start)[k] == rest[k - 1];
        assert entries[1..][k - 1] == entries[k];
      }
    }
  }

  /** A block starts with its numbered heading, then the URL line, and ends with the
      analysis text. */
  lemma BlockShape(idx: nat, e: Entry)
    ensures StartsWith(Block(idx, e), Header(idx) + "\n" + UrlLine(e.url) + "\n")
    ensures EndsWith(Block(idx, e), e.analysisText)
  {
    var xs := [Header(idx), UrlLine(e.url), FileLine(e.analysisPath), "", e.analysisText];
    JoinFirstLast(xs, "\n");
    JoinFirstLast(xs[1..], "\n");
    JoinStart(xs[0], xs[1], Join(xs[2..], "\n"), "\n");
    assert xs[1..][1..] == xs[2..];
  }

  /** A text made of `a`, the separator, `b`, the separator and more starts with the first
      four. */
  lemma JoinStart(a: string, b: string, more: string, sep: string)
    ensures StartsWith(a + sep + (b + sep + more), a + sep + b + sep)
  {
    StartsWithAppend(b + sep, more);
    StartsWithPrepend(a + sep, b + sep + more, b + sep);
    assert a + sep + (b + sep) == a + sep + b + sep;
  }

  /** The entries appear in the prompt in their own order, block `k` numbered `k + 1`. */
  lemma PromptBlocks(entries: seq<Entry>)
    ensures var bs := Blocks(entries, 1);
      |bs| == |entries|
      && forall k :: 0 <= k < |bs| ==>
           StartsWith(bs[k], Header(k + 1) + "\n" + UrlLine(entries[k].url) + "\n")
           && EndsWith(bs[k], entries[k].analysisText)
  {
    BlocksNumbered(entries, 1);
    forall k | 0 <= k < |entries|
      ensures StartsWith(Blocks(entries, 1)[k], Header(k + 1) + "\n" + UrlLine(entries[k].url) + "\n")
      ensures EndsWith(Blocks(entries, 1)[k], entries[k].analysisText)
    {
      BlockShape(k + 1, entries[k]);
    }
  }

  /** A template without the placeholder is the prompt as it is. */
  lemma PromptWithoutPlaceholder(template: string, entries: seq<Entry>)
    requires !Contains(template, Placeholder)
    ensures PromptText(template, entries) == template
  {
    ReplaceAllAbsent(template, Placeholder, Join(Blocks(entries, 1), "\n\n"));
  }

  /** A template that is only the placeholder gives the blocks alone. */
  lemma PromptOfPlaceholder(entries: seq<Entry>)
    ensures PromptText(Placeholder, entries) == Join(Blocks(entries, 1), "\n\n")
  {
    var analyses := Join(Blocks(entries, 1), "\n\n");
    assert Placeholder[..|Placeholder|] == Placeholder;
    assert Placeholder[|Placeholder|..] == "";
    assert analyses + "" == analyses;
  }

  // ---------------------------------------------------------------------------------------
  // run_gemini

  /** What `generate_content` gives: a response, or an exception with its message. */
  datatype GenerateOutcome = Generated(response: Response) | Raised(message: string)

  const NoKeyMessage: string := "環境変数 GOOGLE_API_KEY が設定されていません。"
  const EmptyReplyMessage: string := "Gemini から有効なテキスト応答が得られませんでした。"

  /** The text of a response: its stripped `text` when that is non-empty, otherwise the part
      texts of all candidates run together and stripped. */
  function ResponseText(resp: Response): string {
    if Truthy(resp.text) then Strip(resp.text.value)
    else Strip(Join(CandidateTexts(resp.candidates), ""))
  }

  /** The `text +=` loops over the candidates and their parts. */
  method CollectResponseText(resp: Response) returns (text: string)
    ensures text == ResponseText(resp)
  {
    if Truthy(resp.text) {
      text := Strip(resp.text.value);
    } else {
      var cands := resp.candidates;
      text := "";
      var i := 0;
      while i < |cands|
        invariant 0 <= i <= |cands|
        invariant text == Join(CandidateTexts(cands[..i]), "")
      {
        var more := "";
        if cands[i].content.Some? {
          more := CollectPartTexts(cands[i].content.value.parts);
        }
        CandidateStep(cands, i);
        text := text + more;
        i := i + 1;
      }
      assert cands[..|cands|] == cands;
      text := Strip(text);
    }
  }

  /** The concatenated texts up to the next candidate. */
  lemma CandidateStep(cands: seq<Candidate>, i: nat)
    requires i < |cands|
    ensures Join(CandidateTexts(cands[..i + 1]), "")
         == Join(CandidateTexts(cands[..i]), "")
            + (if cands[i].content.Some? then Join(PartTexts(cands[i].content.value.parts), "") else "")
  {
    var here := if cands[i].content.Some? then PartTexts(cands[i].content.value.parts) else [];
    CandidateTextsAppend(cands[..i], [cands[i]]);
    assert cands[..i + 1] == cands[..i] + [cands[i]];
    assert CandidateTexts([cands[i]]) == here + [];
    assert here + [] == here;
    ConcatAppend(CandidateTexts(cands[..i]), here);
  }

  /** The inner loop: the non-empty part texts run together. */
  method CollectPartTexts(parts: seq<Part>) returns (text: string)
    ensures text == Join(PartTexts(parts), "")
  {
    text := "";
    var j := 0;
    while j < |parts|
      invariant 0 <= j <= |parts|
      invariant text == Join(PartTexts(parts[..j]), "")
    {
      PartStep(parts, j);
      if Truthy(parts[j].text) {
        text := text + parts[j].text.value;
      }
      j := j + 1;
    }
    assert parts[..|parts|] == parts;
  }

  lemma PartStep(parts: seq<Part>, j: nat)
    requires j < |parts|
    ensures Join(PartTexts(parts[..j + 1]), "")
         == Join(PartTexts(parts[..j]), "") + (if Truthy(parts[j].text) then parts[j].text.value else "")
  {
    PartTextsAppend(parts[..j], [parts[j]]);
    assert parts[..j + 1] == parts[..j] + [parts[j]];
    ConcatAppend(PartTexts(parts[..j]), PartTexts([parts[j]]));
    if Truthy(parts[j].text) {
      assert PartTexts([parts[j]]) == [parts[j].text.value];
    } else {
      assert PartTexts([parts[j]]) == [];
    }
  }

  lemma {:induction false} PartTextsAppend(a: seq<Part>, b: seq<Part>)
    ensures PartTexts(a + b) == PartTexts(a) + PartTexts(b)
    decreases |a|
  {
    if a == [] {
      assert a + b == b;
    } else {
      assert (a + b)[0] == a[0] && (a + b)[1..] == a[1..] + b;
      PartTextsAppend(a[1..], b);
    }
  }

  lemma {:induction false} CandidateTextsAppend(a: seq<Candidate>, b: seq<Candidate>)
    ensures CandidateTexts(a + b) == CandidateTexts(a) + CandidateTexts(b)
    decreases |a|
  {
    if a == [] {
      assert a + b == b;
    } else {
      assert (a + b)[0] == a[0] && (a + b)[1..] == a[1..] + b;
      CandidateTextsAppend(a[1..], b);
    }
  }

  /** `run_gemini`: no key, a call that raised and an empty reply are errors; otherwise the
      report is the reply's text, stripped and non-empty. */
  function RunGemini(apiKey: Option<string>, outcome: GenerateOutcome): (r: Result<string, string>)
    ensures r.Failure? <==> !Truthy(apiKey) || outcome.Raised? || ResponseText(outcome.response) == ""
    ensures r.Success? ==> r.value == ResponseText(outcome.response) && r.value != "" && Strip(r.value) == r.value
  {
    if !Truthy(apiKey) then Failure(NoKeyMessage)
    else match outcome
      case Raised(e) => Failure(e)
      case Generated(resp) =>
        var text := ResponseText(resp);
        if text == "" then Failure(EmptyReplyMessage)
        else
          assert Strip(text) == text by {
            if Truthy(resp.text) {
              StripIdempotent(resp.text.value);
            } else {
              StripIdempotent(Join(CandidateTexts(resp.candidates), ""));
            }
          }
          Success(text)
  }

  /** When the reply has no text, the report is the part texts run together, with no
      separator, stripped. */
  lemma ReplyPartsConcatenated(resp: Response, a: Candidate, b: Candidate)
    requires !Truthy(resp.text) && resp.candidates == [a, b]
    ensures ResponseText(resp) == Strip(Join(CandidateTexts([a]), "") + Join(CandidateTexts([b]), ""))
  {
    CandidateTextsAppend([a], [b]);
    assert [a] + [b] == [a, b];
    ConcatAppend(CandidateTexts([a]), CandidateTexts([b]));
  }
}
