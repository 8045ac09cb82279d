/** Small helpers of the capture: the base tag added before a static render, the entry HTML
    file of a local page, the meta fields read from a page and the text of a Gemini reply. */
module Page {
  import opened Results
  import opened Strings

  // ---------------------------------------------------------------------------------------
  // sanitize_html_for_static_render

  /** `<base href="URL">` */
  function BaseTag(baseUrl: string): string {
    "<base href=\"" + baseUrl + "\">"
  }

  const HeadTag: string := "<head>"
  const BaseOpen: string := "<base"

  /** `sanitize_html_for_static_render`: drop the scripts (`stripScripts` is the regular
      expression substitution), then, unless the page already mentions `<base` in any letter
      case, put the base tag right after the first `<head>`, or in front of everything when
      there is none. */
  function SanitizeHtml(html: string, baseUrl: string, stripScripts: string -> string): (r: string)
    ensures Contains(LowerAscii(r), BaseOpen)
  {
    var cleaned := stripScripts(html);
    if !Contains(LowerAscii(cleaned), BaseOpen) then
      var tag := BaseTag(baseUrl);
      if Contains(cleaned, HeadTag) then
        var i := Find(cleaned, HeadTag).value;
        var r := cleaned[..i] + HeadTag + tag + cleaned[i + |HeadTag|..];
        assert r == (cleaned[..i] + HeadTag) + tag + cleaned[i + |HeadTag|..];
        BaseTagMentionsBase(cleaned[..i] + HeadTag, baseUrl, cleaned[i + |HeadTag|..]);
        r
      else
        BaseTagMentionsBase("", baseUrl, cleaned);
        assert "" + tag + cleaned == tag + cleaned;
        tag + cleaned
    else cleaned
  }

  /** A text holding the base tag mentions `<base` once lowered. */
  lemma BaseTagMentionsBase(a: string, baseUrl: string, b: string)
    ensures Contains(LowerAscii(a + BaseTag(baseUrl) + b), BaseOpen)
  {
    var s := a + BaseTag(baseUrl) + b;
    var l := LowerAscii(s);
    assert s[|a|..|a| + |BaseOpen|] == BaseOpen;
    forall k | 0 <= k < |BaseOpen| ensures l[|a| + k] == BaseOpen[k] {
      assert s[|a| + k] == BaseOpen[k];
    }
    assert l[|a|..|a| + |BaseOpen|] == BaseOpen;
    assert OccursAt(l, BaseOpen, |a|);
  }

  /** The sanitised page is the cleaned one with at most the base tag added: deleting it gives
      the cleaned page back. It goes right after the first `<head>`, or at the very start. */
  lemma SanitizeAddsOnlyBaseTag(html: string, baseUrl: string, stripScripts: string -> string)
    ensures var cleaned := stripScripts(html);
      var r := SanitizeHtml(html, baseUrl, stripScripts);
      var tag := BaseTag(baseUrl);
      if Contains(LowerAscii(cleaned), BaseOpen) then r == cleaned
      else
        exists k :: OccursAt(r, tag, k) && r[..k] + r[k + |tag|..] == cleaned
          && (if Contains(cleaned, HeadTag) then k == Find(cleaned, HeadTag).value + |HeadTag|
              else k == 0)
  {
    var cleaned := stripScripts(html);
    var r := SanitizeHtml(html, baseUrl, stripScripts);
    var tag := BaseTag(baseUrl);
    if !Contains(LowerAscii(cleaned), BaseOpen) {
      if Contains(cleaned, HeadTag) {
        var i := Find(cleaned, HeadTag).value;
        var a := cleaned[..i] + HeadTag;
        var b := cleaned[i + |HeadTag|..];
        assert r == a + tag + b;
        Reinsert(a, tag, b);
        assert a + b == cleaned;
      } else {
        Reinsert("", tag, cleaned);
        assert "" + tag + cleaned == r;
      }
    }
  }

  /** Cutting a piece out of the place it was put back in. */
  lemma Reinsert(a: string, t: string, b: string)
    ensures var r := a + t + b;
      OccursAt(r, t, |a|) && r[..|a|] + r[|a| + |t|..] == a + b
  {
    var r := a + t + b;
    assert r[..|a|] == a;
    assert r[|a|..|a| + |t|] == t;
    assert r[|a| + |t|..] == b;
  }

  /** Sanitising a sanitised page again changes nothing, provided that stripping scripts
      leaves it alone: it already mentions `<base`. */
  lemma SanitizeIdempotent(html: string, baseUrl: string, stripScripts: string -> string)
    requires stripScripts(SanitizeHtml(html, baseUrl, stripScripts)) == SanitizeHtml(html, baseUrl, stripScripts)
    ensures SanitizeHtml(SanitizeHtml(html, baseUrl, stripScripts), baseUrl, stripScripts)
         == SanitizeHtml(html, baseUrl, stripScripts)
  {
  }

  // ---------------------------------------------------------------------------------------
  // resolve_local_html_path

  /** What the file system holds at a path: nothing, a regular file, a directory, or
      something else (a socket, a device). */
  datatype Node = Missing | File | Directory | Other

  /** `dir / name` in `pathlib`, for a non-empty relative `name` without "/" and a
      `dir` that does not end in "/"; `pathlib`'s normalisation of other paths is not modelled. */
  function ChildPath(dir: string, name: string): string {
    dir + "/" + name
  }

  function NoIndexMessage(c: string): string {
    "ディレクトリ " + c + " に index.html / index.htm が見つかりません。"
  }

  function NotFoundMessage(c: string): string {
    "HTMLファイルが見つかりません: " + c
  }

  function NotFileMessage(c: string): string {
    "指定されたパスはファイルまたはディレクトリではありません: " + c
  }

  /** `resolve_local_html_path` for an already expanded and resolved `candidate`: a directory
      is entered through `index.html`, else `index.htm` (either only has to exist); a regular
      file is its own entry point; anything else is FileNotFoundError with its message.
      The result exists, and `index.html` is preferred over `index.htm` whenever it exists. */
  function ResolveLocalHtmlPath(candidate: string, fs: string -> Node): (r: Result<string, string>)
    ensures r.Success? ==> fs(r.value) != Missing
    ensures var html := ChildPath(candidate, "index.html");
      var htm := ChildPath(candidate, "index.htm");
      && (r.Success? <==> (fs(candidate) == File
                           || (fs(candidate) == Directory && (fs(html) != Missing || fs(htm) != Missing))))
      && (fs(candidate) == File ==> r == Success(candidate))
      && (fs(candidate) == Directory && fs(html) != Missing ==> r == Success(html))
      && (fs(candidate) == Directory && fs(html) == Missing && fs(htm) != Missing ==> r == Success(htm))
    ensures r.Failure? ==> r.error == match fs(candidate)
                                     case Directory => NoIndexMessage(candidate)
                                     case Missing => NotFoundMessage(candidate)
                                     case _ => NotFileMessage(candidate)
  {
    if fs(candidate) == Directory then
      if fs(ChildPath(candidate, "index.html")) != Missing then Success(ChildPath(candidate, "index.html"))
      else if fs(ChildPath(candidate, "index.htm")) != Missing then Success(ChildPath(candidate, "index.htm"))
      else Failure(NoIndexMessage(candidate))
    else if fs(candidate) == Missing then Failure(NotFoundMessage(candidate))
    else if fs(candidate) == File then Success(candidate)
    else Failure(NotFileMessage(candidate))
  }

  /** The entry point of a directory lies inside it. */
  lemma ResolvedEntryInsideDirectory(candidate: string, fs: string -> Node)
    requires fs(candidate) == Directory && ResolveLocalHtmlPath(candidate, fs).Success?
    ensures var p := ResolveLocalHtmlPath(candidate, fs).value;
      StartsWith(p, candidate + "/") && (EndsWith(p, "/index.html") || EndsWith(p, "/index.htm"))
  {
    var p := ResolveLocalHtmlPath(candidate, fs).value;
    if p == ChildPath(candidate, "index.html") {
      assert p == (candidate + "/") + "index.html";
      assert p[|p| - |"/index.html"|..] == "/index.html";
    } else {
      assert p == (candidate + "/") + "index.htm";
      assert p[|p| - |"/index.htm"|..] == "/index.htm";
    }
  }

  // ---------------------------------------------------------------------------------------
  // collect_meta

  /** The meta data read from a page. */
  datatype Meta = Meta(title: string, description: string, keywords: string)

  /** How many `meta[name=...]` elements a page has and the `content` attribute of the first
      (absent attributes read as `None`). */
  datatype MetaTags = MetaTags(count: nat, firstContent: Option<string>)

  /** `(first.get_attribute("content") if count > 0 else "") or ""` */
  function MetaField(tags: MetaTags): (r: string)
    ensures r != "" <==> tags.count > 0 && tags.firstContent.Some? && tags.firstContent.value != ""
    ensures r != "" ==> r == tags.firstContent.value
  {
    if tags.count > 0 then tags.firstContent.GetOr("") else ""
  }

  /** `collect_meta`: the title, and the description and keywords with every absent value,
      whether the element or its attribute is missing, read as "". */
  function CollectMeta(title: string, description: MetaTags, keywords: MetaTags): (m: Meta)
    ensures m.title == title
    ensures m.description == (if description.count > 0 && description.firstContent.Some?
                              then description.firstContent.value else "")
    ensures m.keywords == (if keywords.count > 0 && keywords.firstContent.Some?
                           then keywords.firstContent.value else "")
  {
    Meta(title, MetaField(description), MetaField(keywords))
  }

  // ---------------------------------------------------------------------------------------
  // extract_text_from_genai_response

  /** The parts of a Gemini reply that matter here; a missing attribute is `None`, and a
      missing or `None` `candidates` list and a missing `parts` attribute are the empty list.
      A candidate whose `parts` is `None` makes the source's loop raise `TypeError`, which
      `run_gemini_ocr`'s handler turns into "": such a reply is modelled as `Ocr.CallFailed`,
      not as a `Response`. */
  datatype Part = Part(text: Option<string>)
  datatype Content = Content(parts: seq<Part>)
  datatype Candidate = Candidate(content: Option<Content>)
  datatype Response = Response(text: Option<string>, candidates: seq<Candidate>)

  /** A value Python treats as true: a present, non-empty string. */
  predicate Truthy(t: Option<string>) {
    t.Some? && t.value != ""
  }

  /** The non-empty texts of `parts`, in order. */
  function PartTexts(parts: seq<Part>): (r: seq<string>)
    ensures forall k :: 0 <= k < |r| ==> r[k] != ""
    ensures |r| <= |parts|
  {
    if parts == [] then []
    else (if Truthy(parts[0].text) then [parts[0].text.value] else []) + PartTexts(parts[1..])
  }

  /** The non-empty part texts of all candidates, candidate by candidate. */
  function CandidateTexts(cands: seq<Candidate>): (r: seq<string>)
    ensures forall k :: 0 <= k < |r| ==> r[k] != ""
  {
    if cands == [] then []
    else
      var here := if cands[0].content.Some? then PartTexts(cands[0].content.value.parts) else [];
      here + CandidateTexts(cands[1..])
  }

  /** `extract_text_from_genai_response`: "" for no reply, the reply's own text when it has
      one, and otherwise the non-empty part texts joined by line breaks. */
  function ExtractText(response: Option<Response>): string {
    match response
    case None => ""
    case Some(resp) =>
      if Truthy(resp.text) then resp.text.value
      else Join(CandidateTexts(resp.candidates), "\n")
  }

  /** The extracted text is empty exactly when there is no reply or the reply has neither its
      own text nor any non-empty part text. */
  lemma ExtractTextEmpty(response: Option<Response>)
    ensures ExtractText(response) == "" <==>
      response.None? || (!Truthy(response.value.text) && CandidateTexts(response.value.candidates) == [])
  {
    if response.Some? && !Truthy(response.value.text) {
      JoinOfNonEmpty(CandidateTexts(response.value.candidates), "\n");
    }
  }

  /** When no part text holds a line break, splitting the extracted text at line breaks gives
      back the part texts one by one. */
  lemma ExtractTextSplits(resp: Response)
    requires !Truthy(resp.text)
    requires var ts := CandidateTexts(resp.candidates);
      ts != [] && forall k :: 0 <= k < |ts| ==> Avoids(ts[k], {'\n'})
    ensures Split(ExtractText(Some(resp)), {'\n'}) == CandidateTexts(resp.candidates)
  {
    SplitJoin(CandidateTexts(resp.candidates), '\n');
  }
}
