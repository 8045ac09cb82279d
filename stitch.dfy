/** Turning OCR output into paragraphs: `clean_ocr_text` for the text of one segment and
    `combine_clean_segments` for the texts of all segments. */
module Stitch {
  import opened Strings
  import opened DedupFilter

  // ---------------------------------------------------------------------------------------
  // clean_ocr_text

  /** `re.fullmatch(r"[\W_]+", s)`: `s` is non-empty and made only of non-word characters and
      underscores; `wordChar` is the regular expression's `\w`. */
  predicate SymbolsOnly(s: string, wordChar: char -> bool) {
    |s| > 0 && forall i :: 0 <= i < |s| ==> !wordChar(s[i]) || s[i] == '_'
  }

  /** The stripped line, unless it is blank or symbols only. */
  function KeptLine(piece: string, wordChar: char -> bool): seq<string> {
    var t := Strip(piece);
    if t != "" && !SymbolsOnly(t, wordChar) then [t] else []
  }

  /** The stripped lines that are kept. */
  function KeptLines(pieces: seq<string>, wordChar: char -> bool): seq<string> {
    if pieces == [] then [] else KeptLine(pieces[0], wordChar) + KeptLines(pieces[1..], wordChar)
  }

  /** A line that ends a paragraph: it ends with sentence punctuation or is longer than 40
      characters. */
  predicate ClosesParagraph(line: string) {
    || EndsWith(line, "。") || EndsWith(line, "！") || EndsWith(line, "？")
    || EndsWith(line, "!") || EndsWith(line, "?")
    || |line| > 40
  }

  /** The paragraphs built from `lines` when `buffer` holds the lines of the paragraph being
      built: lines are glued with "" and a paragraph closes after a closing line; what is left
      in the buffer at the end is the last paragraph. */
  function Paragraphs(lines: seq<string>, buffer: seq<string>): seq<string>
    decreases |lines|
  {
    if lines == [] then (if buffer == [] then [] else [Join(buffer, "")])
    else
      var b := buffer + [lines[0]];
      if ClosesParagraph(lines[0]) then [Join(b, "")] + Paragraphs(lines[1..], [])
      else Paragraphs(lines[1..], b)
  }

  /** The dedup key of `clean_ocr_text`: the paragraph without its ASCII spaces. */
  function SpaceFree(p: string): string {
    ReplaceAll(p, " ", "")
  }

  /** The kept lines of a raw OCR text, split where `splitlines` splits. */
  function RawLines(raw: string, wordChar: char -> bool): seq<string> {
    KeptLines(Split(raw, LineBreaks), wordChar)
  }

  /** The paragraphs `clean_ocr_text` keeps: the first of every space-free key. */
  function CleanParagraphs(raw: string, wordChar: char -> bool): seq<string> {
    Dedup(Paragraphs(RawLines(raw, wordChar), []), SpaceFree)
  }

  /** What `clean_ocr_text` returns. */
  function CleanText(raw: string, wordChar: char -> bool): string {
    if raw == "" then "" else Join(CleanParagraphs(raw, wordChar), "\n")
  }

  /** `clean_ocr_text`: keep the lines, build the paragraphs, drop the repeats. */
  method CleanOcrText(raw: string, wordChar: char -> bool) returns (r: string)
    ensures r == CleanText(raw, wordChar)
  {
    if raw == "" {
      return "";
    }
    var lines := KeepLines(Split(raw, LineBreaks), wordChar);
    if lines == [] {
      return "";
    }
    var paragraphs := BuildParagraphs(lines);
    var deduped := DedupBySpaceFree(paragraphs);
    return Join(deduped, "\n");
  }

  /** The line loop of `clean_ocr_text`: strip every line, skip the blank and the
      symbols-only ones. */
  method KeepLines(pieces: seq<string>, wordChar: char -> bool) returns (lines: seq<string>)
    ensures lines == KeptLines(pieces, wordChar)
  {
    lines := [];
    var i := 0;
    while i < |pieces|
      invariant 0 <= i <= |pieces|
      invariant lines + KeptLines(pieces[i..], wordChar) == KeptLines(pieces, wordChar)
    {
      KeptLinesStep(pieces, i, wordChar, lines);
      var stripped := Strip(pieces[i]);
      if stripped != "" && !SymbolsOnly(stripped, wordChar) {
        lines := lines + [stripped];
      } else {
        assert KeptLine(pieces[i], wordChar) == [];
        assert lines + [] == lines;
      }
      i := i + 1;
    }
    assert pieces[|pieces|..] == [];
  }

  /** The paragraph loop of `clean_ocr_text`: add each line to the buffer and close the
      paragraph after a closing line; a non-empty buffer at the end is the last paragraph. */
  method BuildParagraphs(lines: seq<string>) returns (paragraphs: seq<string>)
    ensures paragraphs == Paragraphs(lines, [])
  {
    paragraphs := [];
    var buffer: seq<string> := [];
    var i := 0;
    while i < |lines|
      invariant 0 <= i <= |lines|
      invariant paragraphs + Paragraphs(lines[i..], buffer) == Paragraphs(lines, [])
    {
      ParagraphsStep(lines, i, buffer);
      var line := lines[i];
      buffer := buffer + [line];
      if ClosesParagraph(line) {
        AppendAssoc(paragraphs, [Join(buffer, "")], Paragraphs(lines[i + 1..], []));
        paragraphs := paragraphs + [Join(buffer, "")];
        buffer := [];
      }
      i := i + 1;
    }
    assert lines[|lines|..] == [];
    if buffer != [] {
      paragraphs := paragraphs + [Join(buffer, "")];
    }
  }

  /** The dedup loop of `clean_ocr_text`, on the space-free key. */
  method DedupBySpaceFree(paragraphs: seq<string>) returns (deduped: seq<string>)
    ensures deduped == Dedup(paragraphs, SpaceFree)
  {
    deduped := [];
    var seen: set<string> := {};
    var i := 0;
    while i < |paragraphs|
      invariant 0 <= i <= |paragraphs|
      invariant deduped + DedupFrom(paragraphs[i..], SpaceFree, seen) == Dedup(paragraphs, SpaceFree)
    {
      DedupLoopStep(paragraphs, i, SpaceFree, seen, deduped);
      var key := SpaceFree(paragraphs[i]);
      if key !in seen {
        seen := seen + {key};
        deduped := deduped + [paragraphs[i]];
      }
      i := i + 1;
    }
    assert paragraphs[|paragraphs|..] == [];
  }

  /** The line loop's invariant survives one step: `lines` holds the lines kept so far. */
  lemma KeptLinesStep(pieces: seq<string>, i: nat, wordChar: char -> bool, lines: seq<string>)
    requires i < |pieces|
    requires lines + KeptLines(pieces[i..], wordChar) == KeptLines(pieces, wordChar)
    ensures (lines + KeptLine(pieces[i], wordChar)) + KeptLines(pieces[i + 1..], wordChar)
         == KeptLines(pieces, wordChar)
  {
    var p := pieces[i..];
    assert p[1..] == pieces[i + 1..];
    assert p[0] == pieces[i];
    var h := KeptLine(pieces[i], wordChar);
    var r := KeptLines(pieces[i + 1..], wordChar);
    assert KeptLines(p, wordChar) == h + r;
    AppendAssoc(lines, h, r);
  }

  /** A stripped line that is not empty is trimmed. */
  lemma StrippedIsTrimmed(p: string, cs: set<char>)
    requires Avoids(p, cs) && Strip(p) != ""
    ensures Trimmed(Strip(p), cs)
  {
    StripTrims(p);
    StripAvoids(p, cs);
  }

  /** Every kept line is stripped, non-empty, not symbols only, and holds no line break. */
  lemma {:induction false} KeptLinesFacts(pieces: seq<string>, wordChar: char -> bool)
    requires forall k :: 0 <= k < |pieces| ==> Avoids(pieces[k], LineBreaks)
    ensures TrimmedLines(KeptLines(pieces, wordChar), LineBreaks)
    ensures forall k :: 0 <= k < |KeptLines(pieces, wordChar)| ==> !SymbolsOnly(KeptLines(pieces, wordChar)[k], wordChar)
  {
    if pieces != [] {
      var tail := pieces[1..];
      forall k | 0 <= k < |tail| ensures Avoids(tail[k], LineBreaks) {
        assert tail[k] == pieces[k + 1];
      }
      KeptLinesFacts(tail, wordChar);
      var t := Strip(pieces[0]);
      var head: seq<string> := if t != "" && !SymbolsOnly(t, wordChar) then [t] else [];
      if t != "" {
        StrippedIsTrimmed(pieces[0], LineBreaks);
      }
      var rest := KeptLines(tail, wordChar);
      var ls := head + rest;
      assert ls == KeptLines(pieces, wordChar);
      forall k | 0 <= k < |ls| ensures Trimmed(ls[k], LineBreaks) && !SymbolsOnly(ls[k], wordChar) {
        if k >= |head| {
          assert ls[k] == rest[k - |head|];
        } else {
          assert ls[k] == t;
        }
      }
    }
  }

  /** One step of paragraph building, for the loop that computes it. */
  lemma ParagraphsStep(lines: seq<string>, i: nat, buffer: seq<string>)
    requires i < |lines|
    ensures var b := buffer + [lines[i]];
      Paragraphs(lines[i..], buffer)
      == if ClosesParagraph(lines[i]) then [Join(b, "")] + Paragraphs(lines[i + 1..], [])
         else Paragraphs(lines[i + 1..], b)
  {
    assert lines[i..][1..] == lines[i + 1..];
  }

  /** No text is lost or reordered in paragraph building: gluing the paragraphs gives the
      buffer and the lines glued. */
  lemma {:induction false} ParagraphsKeepText(lines: seq<string>, buffer: seq<string>)
    ensures Join(Paragraphs(lines, buffer), "") == Join(buffer + lines, "")
    decreases |lines|
  {
    if lines == [] {
      assert buffer + lines == buffer;
    } else {
      var b := buffer + [lines[0]];
      assert b + lines[1..] == buffer + lines;
      ParagraphsKeepText(lines[1..], if ClosesParagraph(lines[0]) then [] else b);
      if ClosesParagraph(lines[0]) {
        ConcatAppend([Join(b, "")], Paragraphs(lines[1..], []));
        ConcatAppend(b, lines[1..]);
        assert [] + lines[1..] == lines[1..];
      }
    }
  }

  /** The lines of each paragraph `Paragraphs(lines, buffer)` builds, paragraph by paragraph. */
  function LineGroups(lines: seq<string>, buffer: seq<string>): seq<seq<string>>
    decreases |lines|
  {
    if lines == [] then (if buffer == [] then [] else [buffer])
    else
      var b := buffer + [lines[0]];
      if ClosesParagraph(lines[0]) then [b] + LineGroups(lines[1..], [])
      else LineGroups(lines[1..], b)
  }

  /** The groups run together. */
  function Flatten(gs: seq<seq<string>>): seq<string> {
    if gs == [] then [] else gs[0] + Flatten(gs[1..])
  }

  lemma {:induction false} GroupsFlatten(lines: seq<string>, buffer: seq<string>)
    ensures Flatten(LineGroups(lines, buffer)) == buffer + lines
    decreases |lines|
  {
    if lines == [] {
      if buffer != [] {
        assert [buffer][1..] == [];
      }
    } else {
      var b := buffer + [lines[0]];
      assert b + lines[1..] == buffer + lines;
      if ClosesParagraph(lines[0]) {
        var gs := LineGroups(lines[1..], []);
        GroupsFlatten(lines[1..], []);
        assert ([b] + gs)[1..] == gs;
      } else {
        GroupsFlatten(lines[1..], b);
      }
    }
  }

  lemma {:induction false} GroupsJoin(lines: seq<string>, buffer: seq<string>)
    ensures var gs := LineGroups(lines, buffer);
      var ps := Paragraphs(lines, buffer);
      |ps| == |gs| && forall i :: 0 <= i < |gs| ==> ps[i] == Join(gs[i], "")
    decreases |lines|
  {
    if lines != [] {
      var b := buffer + [lines[0]];
      if ClosesParagraph(lines[0]) {
        GroupsJoin(lines[1..], []);
      } else {
        GroupsJoin(lines[1..], b);
      }
    }
  }

  /** Every group is non-empty, every group but the last ends with a closing line, and no
      other line of a group is a closing line. */
  predicate GroupsBreakAtClosing(gs: seq<seq<string>>) {
    && (forall i :: 0 <= i < |gs| ==> gs[i] != [])
    && (forall i :: 0 <= i < |gs| - 1 ==> ClosesParagraph(gs[i][|gs[i]| - 1]))
    && (forall i, j :: 0 <= i < |gs| && 0 <= j < |gs[i]| - 1 ==> !ClosesParagraph(gs[i][j]))
  }

  /** Every group is non-empty, ends each group but the last with a closing line, and holds
      no other closing line, when the buffer holds none. */
  lemma {:induction false} GroupsBreaks(lines: seq<string>, buffer: seq<string>)
    requires forall k :: 0 <= k < |buffer| ==> !ClosesParagraph(buffer[k])
    ensures GroupsBreakAtClosing(LineGroups(lines, buffer))
    decreases |lines|
  {
    if lines != [] {
      var b := buffer + [lines[0]];
      if ClosesParagraph(lines[0]) {
        GroupsBreaks(lines[1..], []);
        var gs' := LineGroups(lines[1..], []);
        var gs := [b] + gs';
        assert gs == LineGroups(lines, buffer);
        forall i, j | 0 <= i < |gs| && 0 <= j < |gs[i]| - 1 ensures !ClosesParagraph(gs[i][j]) {
          if i == 0 {
            assert gs[0][j] == buffer[j];
          } else {
            assert gs[i] == gs'[i - 1];
          }
        }
        forall i | 0 <= i < |gs| - 1 ensures gs[i] != [] && ClosesParagraph(gs[i][|gs[i]| - 1]) {
          if i > 0 {
            assert gs[i] == gs'[i - 1];
          }
        }
      } else {
        forall k | 0 <= k < |b| ensures !ClosesParagraph(b[k]) {
          if k < |buffer| {
            assert b[k] == buffer[k];
          }
        }
        GroupsBreaks(lines[1..], b);
        assert LineGroups(lines[1..], b) == LineGroups(lines, buffer);
      }
    }
  }

  /** Where paragraphs break: the lines fall into consecutive groups, one per paragraph, the
      paragraph being its group glued with "". Every group but the last ends with a closing
      line (one ending in 。！？!? or longer than 40 characters), and no other line of any
      group is a closing line. */
  predicate ParagraphGrouping(lines: seq<string>, gs: seq<seq<string>>) {
    var ps := Paragraphs(lines, []);
    && Flatten(gs) == lines
    && |ps| == |gs| && (forall i :: 0 <= i < |gs| ==> ps[i] == Join(gs[i], ""))
    && GroupsBreakAtClosing(gs)
  }

  lemma ParagraphBreaks(lines: seq<string>)
    ensures exists gs :: ParagraphGrouping(lines, gs)
  {
    var gs := LineGroups(lines, []);
    GroupsFlatten(lines, []);
    assert [] + lines == lines;
    GroupsJoin(lines, []);
    GroupsBreaks(lines, []);
    assert ParagraphGrouping(lines, gs);
  }

  /** A non-empty line free of `cs` that neither starts nor ends with whitespace. */
  predicate Trimmed(s: string, cs: set<char>) {
    s != "" && !IsSpace(s[0]) && !IsSpace(s[|s| - 1]) && Avoids(s, cs)
  }

  /** Trimmed lines, all of them. */
  predicate TrimmedLines(ls: seq<string>, cs: set<char>) {
    forall k :: 0 <= k < |ls| ==> Trimmed(ls[k], cs)
  }

  /** Gluing trimmed lines gives a trimmed line. */
  lemma GlueTrimmed(b: seq<string>, cs: set<char>)
    requires |b| >= 1 && TrimmedLines(b, cs)
    ensures Trimmed(Join(b, ""), cs)
  {
    assert forall k :: 0 <= k < |b| ==> b[k] != "" && Avoids(b[k], cs);
    JoinEnds(b, "");
    JoinAvoids(b, "", cs);
  }

  /** Built from trimmed lines, every paragraph is trimmed too, and there is one as soon as
      there is a line. */
  lemma {:induction false} ParagraphsTrimmed(lines: seq<string>, buffer: seq<string>, cs: set<char>)
    requires TrimmedLines(lines, cs) && TrimmedLines(buffer, cs)
    ensures TrimmedLines(Paragraphs(lines, buffer), cs)
    ensures Paragraphs(lines, buffer) == [] <==> lines == [] && buffer == []
    decreases |lines|
  {
    if lines == [] {
      if buffer != [] {
        GlueTrimmed(buffer, cs);
        assert [Join(buffer, "")][0] == Join(buffer, "");
      }
    } else {
      var b := buffer + [lines[0]];
      assert TrimmedLines(b, cs) by {
        forall k | 0 <= k < |b|
          ensures Trimmed(b[k], cs)
        {
          if k == |buffer| {
            assert b[k] == lines[0];
          } else {
            assert b[k] == buffer[k];
          }
        }
      }
      assert TrimmedLines(lines[1..], cs) by {
        forall k | 0 <= k < |lines| - 1
          ensures Trimmed(lines[1..][k], cs)
        {
          assert lines[1..][k] == lines[k + 1];
        }
      }
      if ClosesParagraph(lines[0]) {
        ParagraphsTrimmed(lines[1..], [], cs);
        GlueTrimmed(b, cs);
        var ps := [Join(b, "")] + Paragraphs(lines[1..], []);
        forall k | 0 <= k < |ps|
          ensures Trimmed(ps[k], cs)
        {
          if k > 0 {
            assert ps[k] == Paragraphs(lines[1..], [])[k - 1];
          } else {
            assert ps[0] == [Join(b, "")][0];
          }
        }
      } else {
        ParagraphsTrimmed(lines[1..], b, cs);
      }
    }
  }

  /** The paragraphs of a raw text are trimmed and free of line breaks, and there is one as
      soon as some line is kept. */
  lemma CleanParagraphsTrimmed(raw: string, wordChar: char -> bool)
    ensures TrimmedLines(CleanParagraphs(raw, wordChar), LineBreaks)
    ensures CleanParagraphs(raw, wordChar) == [] <==> RawLines(raw, wordChar) == []
  {
    var pieces := Split(raw, LineBreaks);
    var ls := RawLines(raw, wordChar);
    KeptLinesFacts(pieces, wordChar);
    assert TrimmedLines(ls, LineBreaks);
    assert TrimmedLines([], LineBreaks);
    ParagraphsTrimmed(ls, [], LineBreaks);
    var ps := Paragraphs(ls, []);
    var d := CleanParagraphs(raw, wordChar);
    DedupKept(ps, SpaceFree, {});
    forall k | 0 <= k < |d|
      ensures Trimmed(d[k], LineBreaks)
    {
      assert d[k] in ps;
    }
    DedupEmpty(ps, SpaceFree);
  }

  /** `clean_ocr_text` gives "" exactly when every line is blank or symbols only. */
  lemma CleanTextEmpty(raw: string, wordChar: char -> bool)
    ensures CleanText(raw, wordChar) == "" <==> RawLines(raw, wordChar) == []
  {
    CleanParagraphsTrimmed(raw, wordChar);
    JoinOfNonEmpty(CleanParagraphs(raw, wordChar), "\n");
    if raw == "" {
      var pieces := Split(raw, LineBreaks);
      assert pieces == [""] && pieces[1..] == [];
      assert KeptLine("", wordChar) == [];
      assert KeptLines(pieces[1..], wordChar) == [];
      assert KeptLines(pieces, wordChar) == KeptLine(pieces[0], wordChar) + KeptLines(pieces[1..], wordChar);
    }
  }

  /** The cleaned text holds one paragraph per line: splitting it at line breaks gives back
      the kept paragraphs, whose space-free keys are all different, every one of them stripped
      and non-empty. */
  lemma CleanTextLines(raw: string, wordChar: char -> bool)
    requires RawLines(raw, wordChar) != []
    ensures var d := CleanParagraphs(raw, wordChar);
      && Split(CleanText(raw, wordChar), {'\n'}) == d
      && (forall i, j :: 0 <= i < j < |d| ==> SpaceFree(d[i]) != SpaceFree(d[j]))
      && (forall k :: 0 <= k < |d| ==> d[k] != "" && Strip(d[k]) == d[k])
  {
    var d := CleanParagraphs(raw, wordChar);
    CleanParagraphsTrimmed(raw, wordChar);
    DedupKept(Paragraphs(RawLines(raw, wordChar), []), SpaceFree, {});
    forall k | 0 <= k < |d| ensures Avoids(d[k], {'\n'}) && Strip(d[k]) == d[k] {
      StripOfTrimmed(d[k]);
    }
    CleanTextEmpty(raw, wordChar);
    SplitJoin(d, '\n');
  }

  /** The paragraphs of a raw text, glued back together, are its kept lines glued together,
      less the paragraphs dropped as repeats. */
  lemma CleanParagraphsFromLines(raw: string, wordChar: char -> bool)
    ensures Join(Paragraphs(RawLines(raw, wordChar), []), "") == Join(RawLines(raw, wordChar), "")
    ensures forall k :: 0 <= k < |CleanParagraphs(raw, wordChar)| ==>
              CleanParagraphs(raw, wordChar)[k] in Paragraphs(RawLines(raw, wordChar), [])
  {
    ParagraphsKeepText(RawLines(raw, wordChar), []);
    assert [] + RawLines(raw, wordChar) == RawLines(raw, wordChar);
    DedupKept(Paragraphs(RawLines(raw, wordChar), []), SpaceFree, {});
  }

  /** `clean_ocr_text` keeps, in order, the first paragraph of every space-free key and no
      other, and its paragraphs break where `ParagraphGrouping` says. */
  lemma CleanParagraphsFirstOccurrence(raw: string, wordChar: char -> bool)
    ensures exists ks :: FirstOccurrences(Paragraphs(RawLines(raw, wordChar), []), SpaceFree, {}, CleanParagraphs(raw, wordChar), ks)
    ensures exists gs :: ParagraphGrouping(RawLines(raw, wordChar), gs)
  {
    var ps := Paragraphs(RawLines(raw, wordChar), []);
    KeptPositionsLocate(ps, SpaceFree, {});
    assert FirstOccurrences(ps, SpaceFree, {}, CleanParagraphs(raw, wordChar), KeptPositions(ps, SpaceFree, {}));
    ParagraphBreaks(RawLines(raw, wordChar));
  }

  // ---------------------------------------------------------------------------------------
  // combine_clean_segments

  /** `[p.strip() for p in pieces if p.strip()]` */
  function NonBlankStripped(pieces: seq<string>): seq<string> {
    if pieces == [] then []
    else (if Strip(pieces[0]) != "" then [Strip(pieces[0])] else []) + NonBlankStripped(pieces[1..])
  }

  /** The paragraphs of one segment's clean text. */
  function SegmentParagraphs(text: string): seq<string> {
    var t := Strip(text);
    if t == "" then [] else NonBlankStripped(Split(t, {'\n'}))
  }

  /** The paragraphs of all segments, segment by segment. */
  function AllParagraphs(texts: seq<string>): seq<string> {
    if texts == [] then [] else SegmentParagraphs(texts[0]) + AllParagraphs(texts[1..])
  }

  lemma AllParagraphsStep(texts: seq<string>, i: nat)
    requires i < |texts|
    ensures AllParagraphs(texts[i..]) == SegmentParagraphs(texts[i]) + AllParagraphs(texts[i + 1..])
  {
    assert texts[i..][1..] == texts[i + 1..];
  }

  /** The paragraphs `combine_clean_segments` keeps. */
  function CombinedParagraphs(texts: seq<string>): seq<string> {
    Dedup(AllParagraphs(texts), Exact)
  }

  /** What `combine_clean_segments` returns. */
  function CombinedText(texts: seq<string>): string {
    Join(CombinedParagraphs(texts), "\n\n")
  }

  /** `combine_clean_segments` over the segments' clean texts, in segment order. */
  method CombineCleanSegments(texts: seq<string>) returns (r: string)
    ensures r == CombinedText(texts)
  {
    var combined: seq<string> := [];
    var seen: set<string> := {};
    var i := 0;
    while i < |texts|
      invariant 0 <= i <= |texts|
      invariant combined + DedupFrom(AllParagraphs(texts[i..]), Exact, seen) == CombinedParagraphs(texts)
    {
      AllParagraphsStep(texts, i);
      ghost var rest := AllParagraphs(texts[i + 1..]);
      var text := Strip(texts[i]);
      if text != "" {
        var paras := NonBlankStripped(Split(text, {'\n'}));
        assert paras[0..] + rest == AllParagraphs(texts[i..]);
        var j := 0;
        while j < |paras|
          invariant 0 <= j <= |paras|
          invariant combined + DedupFrom(paras[j..] + rest, Exact, seen) == CombinedParagraphs(texts)
        {
          DedupNestedStep(paras, j, rest, Exact, seen, combined, CombinedParagraphs(texts));
          var paragraph := paras[j];
          if paragraph !in seen {
            seen := seen + {paragraph};
            combined := combined + [paragraph];
          }
          j := j + 1;
        }
        assert paras[|paras|..] + rest == rest;
      } else {
        assert AllParagraphs(texts[i..]) == rest;
      }
      i := i + 1;
    }
    assert AllParagraphs(texts[|texts|..]) == [];
    assert combined + [] == combined;
    return Join(combined, "\n\n");
  }

  /** The non-blank stripped pieces are trimmed, non-empty and free of whatever the pieces
      are free of. */
  lemma {:induction false} NonBlankStrippedFacts(pieces: seq<string>, cs: set<char>)
    requires forall k :: 0 <= k < |pieces| ==> Avoids(pieces[k], cs)
    ensures TrimmedLines(NonBlankStripped(pieces), cs)
  {
    if pieces != [] {
      var tail := pieces[1..];
      forall k | 0 <= k < |tail| ensures Avoids(tail[k], cs) {
        assert tail[k] == pieces[k + 1];
      }
      NonBlankStrippedFacts(tail, cs);
      var t := Strip(pieces[0]);
      if t != "" {
        StrippedIsTrimmed(pieces[0], cs);
      }
      var head: seq<string> := if t != "" then [t] else [];
      var rest := NonBlankStripped(pieces[1..]);
      var ls := head + rest;
      forall k | 0 <= k < |ls|
        ensures Trimmed(ls[k], cs)
      {
        if k >= |head| {
          assert ls[k] == rest[k - |head|];
        }
      }
    }
  }

  /** A segment whose text has something besides whitespace contributes a paragraph. */
  lemma SegmentParagraphsEmpty(text: string)
    ensures SegmentParagraphs(text) == [] <==> Strip(text) == ""
    ensures TrimmedLines(SegmentParagraphs(text), {'\n'})
  {
    var t := Strip(text);
    StripTrims(text);
    if t != "" {
      var pieces := Split(t, {'\n'});
      assert !IsSpace(t[0]);
      assert pieces[0] == [t[0]] + Split(t[1..], {'\n'})[0];
      StripSpec(pieces[0]);
      assert pieces[0][0] == t[0];
      assert Strip(pieces[0]) != "";
      NonBlankStrippedFacts(pieces, {'\n'});
    }
  }

  /** The paragraphs of all segments are trimmed and free of line breaks, and there are none
      exactly when every segment's text is whitespace only. */
  lemma {:induction false} AllParagraphsFacts(texts: seq<string>)
    ensures TrimmedLines(AllParagraphs(texts), {'\n'})
    ensures AllParagraphs(texts) == [] <==> forall k :: 0 <= k < |texts| ==> Strip(texts[k]) == ""
  {
    if texts != [] {
      AllParagraphsFacts(texts[1..]);
      SegmentParagraphsEmpty(texts[0]);
      var head := SegmentParagraphs(texts[0]);
      var rest := AllParagraphs(texts[1..]);
      var ls := head + rest;
      forall k | 0 <= k < |ls|
        ensures Trimmed(ls[k], {'\n'})
      {
        if k >= |head| {
          assert ls[k] == rest[k - |head|];
        } else {
          assert ls[k] == head[k];
        }
      }
      if forall k :: 0 <= k < |texts| ==> Strip(texts[k]) == "" {
        forall k | 0 <= k < |texts| - 1 ensures Strip(texts[1..][k]) == "" {
          assert texts[1..][k] == texts[k + 1];
        }
      }
      if forall k :: 0 <= k < |texts| - 1 ==> Strip(texts[1..][k]) == "" {
        if Strip(texts[0]) == "" {
          forall k | 0 <= k < |texts| ensures Strip(texts[k]) == "" {
            if k > 0 {
              assert texts[k] == texts[1..][k - 1];
            }
          }
        }
      }
    }
  }

  /** The kept paragraphs are trimmed, free of line breaks and all different. */
  lemma CombinedParagraphsFacts(texts: seq<string>)
    ensures var d := CombinedParagraphs(texts);
      && TrimmedLines(d, {'\n'})
      && (forall i, j :: 0 <= i < j < |d| ==> d[i] != d[j])
      && (forall k :: 0 <= k < |d| ==> d[k] in AllParagraphs(texts))
  {
    var all := AllParagraphs(texts);
    AllParagraphsFacts(texts);
    DedupKept(all, Exact, {});
    var d := CombinedParagraphs(texts);
    forall k | 0 <= k < |d|
      ensures Trimmed(d[k], {'\n'})
    {
      assert d[k] in all;
    }
  }

  /** Nothing but repeats is dropped: every paragraph of every segment is kept once. */
  lemma CombinedCovers(texts: seq<string>)
    ensures forall p :: p in AllParagraphs(texts) ==> p in CombinedParagraphs(texts)
  {
    DedupCovers(AllParagraphs(texts), Exact, {});
  }

  /** `combine_clean_segments` keeps, in order, the first occurrence of every paragraph over
      all segments, and no other. */
  lemma CombinedFirstOccurrence(texts: seq<string>)
    ensures exists ks :: FirstOccurrences(AllParagraphs(texts), Exact, {}, CombinedParagraphs(texts), ks)
  {
    var all := AllParagraphs(texts);
    KeptPositionsLocate(all, Exact, {});
    assert FirstOccurrences(all, Exact, {}, CombinedParagraphs(texts), KeptPositions(all, Exact, {}));
  }

  /** A paragraph repeated within a segment and one repeated from an earlier segment are both
      dropped, and the rest keep their order. */
  lemma CombinedExample()
    ensures CombinedParagraphs(["A.\nB.\nA.", "B.\nC."]) == ["A.", "B.", "C."]
  {
    ExampleAll();
    ExampleDedup();
  }

  lemma ExampleAll()
    ensures AllParagraphs(["A.\nB.\nA.", "B.\nC."]) == ["A.", "B.", "A.", "B.", "C."]
  {
    var texts := ["A.\nB.\nA.", "B.\nC."];
    ExampleJoins();
    ExampleSegment(["A.", "B.", "A."]);
    ExampleSegment(["B.", "C."]);
    assert texts[1..][1..] == [];
    assert AllParagraphs(texts) == ["A.", "B.", "A."] + (["B.", "C."] + []);
  }

  lemma ExampleJoins()
    ensures Join(["A.", "B.", "A."], "\n") == "A.\nB.\nA."
    ensures Join(["B.", "C."], "\n") == "B.\nC."
  {
  }

  lemma ExampleDedup()
    ensures Dedup(["A.", "B.", "A.", "B.", "C."], Exact) == ["A.", "B.", "C."]
  {
    var all := ["A.", "B.", "A.", "B.", "C."];
    assert "A."[0] != "B."[0] && "C."[0] != "A."[0] && "C."[0] != "B."[0];
    assert {"A."} + {"B."} == {"A.", "B."};
    assert DedupFrom(all[4..], Exact, {"A.", "B."}) == ["C."];
    assert DedupFrom(all[3..], Exact, {"A.", "B."}) == ["C."];
    assert DedupFrom(all[2..], Exact, {"A.", "B."}) == ["C."];
    assert DedupFrom(all[1..], Exact, {"A."}) == ["B.", "C."];
  }

  /** The segment text of two-character paragraphs "X." joined by line breaks gives them back. */
  lemma ExampleSegment(ps: seq<string>)
    requires 1 <= |ps| && forall k :: 0 <= k < |ps| ==> |ps[k]| == 2 && ps[k][1] == '.' && !IsSpace(ps[k][0])
    ensures SegmentParagraphs(Join(ps, "\n")) == ps
  {
    var t := Join(ps, "\n");
    JoinEnds(ps, "\n");
    StripOfTrimmed(t);
    forall k | 0 <= k < |ps| ensures Avoids(ps[k], {'\n'}) && Strip(ps[k]) != "" && Strip(ps[k]) == ps[k] {
      StripOfTrimmed(ps[k]);
    }
    SplitJoin(ps, '\n');
    NonBlankStrippedKeeps(ps);
  }

  lemma {:induction false} NonBlankStrippedKeeps(ps: seq<string>)
    requires forall k :: 0 <= k < |ps| ==> Strip(ps[k]) != "" && Strip(ps[k]) == ps[k]
    ensures NonBlankStripped(ps) == ps
  {
    if ps != [] {
      NonBlankStrippedKeeps(ps[1..]);
    }
  }

  /** The combined text is "" exactly when every segment's clean text is whitespace only. */
  lemma CombinedTextEmpty(texts: seq<string>)
    ensures CombinedText(texts) == "" <==> forall k :: 0 <= k < |texts| ==> Strip(texts[k]) == ""
  {
    AllParagraphsFacts(texts);
    CombinedParagraphsFacts(texts);
    DedupEmpty(AllParagraphs(texts), Exact);
    JoinOfNonEmpty(CombinedParagraphs(texts), "\n\n");
  }

  /** `ps` with an empty piece between every two: what splitting at "\n" sees between two
      paragraphs joined by a blank line. */
  function Spaced(ps: seq<string>): seq<string> {
    if |ps| <= 1 then ps else [ps[0], ""] + Spaced(ps[1..])
  }

  lemma {:induction false} SpacedJoin(ps: seq<string>)
    ensures Join(ps, "\n\n") == Join(Spaced(ps), "\n")
    ensures |ps| >= 1 ==> |Spaced(ps)| >= 1
  {
    if |ps| >= 2 {
      SpacedJoin(ps[1..]);
      var s := Spaced(ps);
      assert s[1..] == [""] + Spaced(ps[1..]);
      assert s[1..][1..] == Spaced(ps[1..]);
    }
  }

  lemma {:induction false} SpacedStripped(ps: seq<string>)
    requires forall k :: 0 <= k < |ps| ==> ps[k] != "" && Strip(ps[k]) == ps[k]
    ensures NonBlankStripped(Spaced(ps)) == ps
  {
    if |ps| == 1 {
      assert NonBlankStripped(ps[1..]) == [];
    } else if |ps| >= 2 {
      SpacedStripped(ps[1..]);
      var s := Spaced(ps);
      assert s[1..][1..] == Spaced(ps[1..]);
      assert Strip("") == "";
      assert NonBlankStripped(s[1..]) == NonBlankStripped(Spaced(ps[1..]));
      assert ps == [ps[0]] + ps[1..];
    }
  }

  /** Splitting the combined text at line breaks gives its paragraphs with an empty piece
      between each two: the blank lines `"\n\n"` leaves. */
  lemma CombinedTextSplits(texts: seq<string>)
    requires CombinedParagraphs(texts) != []
    ensures Split(CombinedText(texts), {'\n'}) == Spaced(CombinedParagraphs(texts))
  {
    var d := CombinedParagraphs(texts);
    CombinedParagraphsFacts(texts);
    SpacedJoin(d);
    SpacedAvoids(d);
    SplitJoin(Spaced(d), '\n');
  }

  lemma {:induction false} SpacedAvoids(ps: seq<string>)
    requires forall k :: 0 <= k < |ps| ==> Avoids(ps[k], {'\n'})
    ensures forall k :: 0 <= k < |Spaced(ps)| ==> Avoids(Spaced(ps)[k], {'\n'})
  {
    if |ps| >= 2 {
      SpacedAvoids(ps[1..]);
      var s := Spaced(ps);
      forall k | 0 <= k < |s| ensures Avoids(s[k], {'\n'}) {
        if k >= 2 {
          assert s[k] == Spaced(ps[1..])[k - 2];
        }
      }
    }
  }

  /** Combining an already combined text again gives it back unchanged. */
  lemma CombineIdempotent(texts: seq<string>)
    ensures CombinedText([CombinedText(texts)]) == CombinedText(texts)
  {
    var d := CombinedParagraphs(texts);
    var r := CombinedText(texts);
    CombinedParagraphsFacts(texts);
    assert AllParagraphs([r]) == SegmentParagraphs(r) by {
      assert [r][1..] == [];
    }
    if d == [] {
      assert r == "";
      assert Strip("") == "";
    } else {
      JoinEnds(d, "\n\n");
      StripOfTrimmed(r);
      forall k | 0 <= k < |d| ensures Strip(d[k]) == d[k] {
        StripOfTrimmed(d[k]);
      }
      CombinedTextSplits(texts);
      SpacedStripped(d);
      assert SegmentParagraphs(r) == d;
      DedupOfDistinct(d, Exact, {});
    }
  }
}
