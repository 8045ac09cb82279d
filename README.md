# Site capture and transcription, modelled in Dafny

This project models the core of a tool that turns a marketing web page into text. The tool
opens the page in a headless browser. It photographs the page as a column of overlapping
bands, sends each band to Gemini for OCR, and stitches the cleaned band texts into one
transcript. Around that core the model also covers three smaller pieces:

- the job table of the web API, which creates one job per request and fills it in as the
  background worker progresses;
- the bookkeeping of the desktop front end: the output-folder slug, the integer settings,
  the result paths read from the pipeline's output, the sponsored-ad URLs and the command
  line of the pipeline run;
- the consolidated report: the analyses of the latest runs are put into one prompt, and the
  text of the model's reply is extracted.

The browser, the file system, Gemini and the clock are not modelled. Wherever the program
consults them, the model takes their answer as a parameter instead:

- the page height and viewport;
- whether a step raised;
- which launch strategies start;
- what a file holds or whether it exists;
- what the OCR call replies;
- the order in which the parallel OCR calls complete.

Modules, one per file:

| module | file | models |
|---|---|---|
| `Results`, `Strings`, `Decimal`, `Sorting`, `DedupFilter` | results.dfy, strings.dfy, decimal.dfy, sorting.dfy, dedup.dfy | Python's `strip`, `split`, `join`, `replace`, `int()`/`str()` on integers, stable `sorted`, and keep-first deduplication |
| `Slicing` | slicing.dfy | the primary slicing loop, the fallback part planner, and the record of the fallback parts |
| `Capture` | capture.dfy | `merge_segment_images` and `capture_page_screenshots` (as written, and corrected) |
| `Launch` | launch.dfy | `_resolve_headless_shell` and `launch_browser` |
| `Page` | page.dfy | `sanitize_html_for_static_render`, `resolve_local_html_path`, `collect_meta`, `extract_text_from_genai_response` |
| `Stitch` | stitch.dfy | `clean_ocr_text` and `combine_clean_segments` |
| `Ocr` | ocr.dfy | `run_gemini_ocr` and `run_ocr_on_segments` |
| `Pipeline` | pipeline.dfy | `transcribe_website`, `load_and_capture`, `capture_static_render` |
| `Jobs` | jobs.dfy | the `processing_status` table of `api/app.py` (class `JobTable`) |
| `Gui` | gui.dfy | `slugify`, `_parse_int`, `_process_pipeline_stdout_line` (class `PipelineResults`), the ad-URL loop and the command assembly |
| `Summarize` | summarize.dfy | `extract_url_from_analysis_request`, `collect_analysis_entries`, `build_prompt`, `run_gemini` |

Most loops of the source are a `method` with a `while` loop. Each such method is proved equal
to a function of its inputs, and the lemmas about that function state what the source
promises. Two loops are recursive functions instead, because they only compute a value from
a nested reply or a list of lines:
- `Page.ExtractText`, `Page.CandidateTexts` and `Page.PartTexts` model the nested loops of
  `extract_text_from_genai_response` (api/transcribe_website.py:582-598);
- `Summarize.FirstMarkedLine` models the line loop of `extract_url_from_analysis_request`
  (search_man/summarize_analyses.py:49-53).

State that the source updates in place is a class with `modifies` clauses:
- the job table is `Jobs.JobTable`;
- the front end's two lists of result paths are `Gui.PipelineResults`.

Facts about the code that the model relies on:

- Paragraph dedup keys differ within and across bands. `clean_ocr_text` removes only ASCII
  spaces from its key (api/transcribe_website.py:770), so other whitespace still tells two
  paragraphs apart. `combine_clean_segments` compares paragraphs exactly
  (api/transcribe_website.py:789).
- `run_gemini_ocr` calls Gemini once per band, with no retry or backoff; any exception gives
  empty text (api/transcribe_website.py:601-670).
- `transcribe_website` tries the interactive capture twice, the second time with JavaScript
  off, and then the static render (api/transcribe_website.py:928-1009).

## Model

| member | source | states |
|---|---|---|
| Slicing.SliceSegments | api/transcribe_website.py:351-382 | for any overlap below the band height, the bands the slicing loop records are exactly the band sequence `Slices` starting at top 0 with index 1 |
| Slicing.SlicesFields | api/transcribe_website.py:360-371 | the k-th band has index `index + k`, its own file path, a top inside the page and a bottom of top + min(band height, rest of page) |
| Slicing.SlicesAdvance | api/transcribe_website.py:376-378 | consecutive bands start `slice_height - overlap` apart |
| Slicing.SlicesEnds | api/transcribe_website.py:354-382 | there are no bands exactly when the start is already past the page; otherwise the first band starts at the start and the last one is the last whose top is inside the page |
| Slicing.PrimarySlicesTops | api/transcribe_website.py:351-382 | the bands are empty exactly when the page height is at most 0; band k has index k+1 and top k·(slice_height − overlap), and it is non-empty and ends inside the page |
| Slicing.PrimarySlicesGap | api/transcribe_website.py:364-377 | with a negative overlap, on a page taller than one step, the row just below the first band lies in no band |
| Slicing.PrimarySlicesOverlap | api/transcribe_website.py:364-377 | each band ends `overlap` pixels below the next band's top, or at the page bottom; the last band ends at the page bottom |
| Slicing.PrimarySlicesCover | api/transcribe_website.py:351-382 | every pixel row of the page lies inside some band |
| Slicing.DefaultSlicesOf3000 | api/transcribe_website.py:333-382 | a 3000 px page with the default 1400/120 gives three bands: 0–1400, 1280–2680 and 2560–3000 |
| Slicing.NamesDistinct | api/transcribe_website.py:360 | different band numbers give different file names |
| Slicing.CeilDiv | api/transcribe_website.py:447 | `math.ceil(a / b)` for a positive b: the least r with a ≤ r·b |
| Slicing.ViewportHeight | api/transcribe_website.py:441-443 | the fallback's viewport height (the viewport or the desktop default, `or 1`) is at least 1 |
| Slicing.CaptureFallbackSegments | api/transcribe_website.py:433-484 | the loop's parts are the planned parts, and it raises exactly when none was captured |
| Slicing.FallbackPlanShape | api/transcribe_website.py:441-462 | for a positive page height, there are `max(1, max(parts, ceil(total/vh)))` parts; part k scrolls to min(k·vh, total − min(vh, total)), is min(vh, total) tall and stays inside the page |
| Slicing.FallbackPlanEmpty | api/transcribe_website.py:445-462 | a page of height at most 0 gives no parts, so the fallback raises |
| Slicing.FallbackPlanCovers | api/transcribe_website.py:441-477 | every pixel row of the page is inside some fallback part |
| Slicing.PartsFillPage | api/transcribe_website.py:446-451 | the required parts, viewport-tall each, reach the page bottom |
| Slicing.StepIsViewport | api/transcribe_website.py:452 | for a positive page height the scroll step is the viewport height |
| Slicing.FallbackShotsAll | api/transcribe_website.py:455-477 | for a positive page height the loop never breaks: one part for every part number |
| Slicing.ShotHeightPositive | api/transcribe_website.py:456-462 | every clip of a positive-height page is positive, min(vh, total) tall, and inside the page |
| Slicing.StackFallbackMeta | api/transcribe_website.py:401-414 | the loop's record of the fallback parts is the running-sum record `StackedMeta` |
| Slicing.StackedMetaTiles | api/transcribe_website.py:401-414 | part i has number i+1 and its own height; the first starts at 0, each ends where the next starts, and the last ends at the sum of the heights |
| Capture.MergeLayout | api/transcribe_website.py:564-579 | the merge raises exactly when there are no images; otherwise the canvas is as wide as the widest image and as tall as all heights together, and image i is pasted at the sum of the heights before it |
| Capture.MaxWidthIsMaximum | api/transcribe_website.py:567 | the canvas width is at least every image's width and equals one of them |
| Capture.LayoutTiles | api/transcribe_website.py:571-574 | the pasted images tile the canvas from row 0 to its full height without gaps |
| Capture.CapturePageScreenshots | api/transcribe_website.py:333-421 | the capture, with the merged picture's path bound first, gives the corrected result `CaptureSpec` |
| Capture.AsWrittenSucceedsIff | api/transcribe_website.py:333-421 | as written, the capture succeeds exactly when the slicer raised nothing and the page has some height |
| Capture.CaptureSucceedsIff | api/transcribe_website.py:333-421 | corrected, the capture succeeds exactly when the page has some height and the slicer or the fallback works |
| Capture.FallbackRecovers | api/transcribe_website.py:397-421 | corrected, a failing slicer with a working fallback gives at least two contiguous parts starting at 0 |
| Capture.SlicerErrorExample | api/transcribe_website.py:397-421 | a 3000 px page whose slicer times out: as written the capture raises the unbound-variable error; corrected, it returns three fallback parts |
| Capture.FallbackRecordIsStacked | api/transcribe_website.py:401-414 | a 1000 px page under a 900 px viewport: the two parts scroll to 0 and 100, but their record says 0–900 and 900–1800 |
| Capture.StackedMetaMatchesMerge | api/transcribe_website.py:401-417 | the recorded top of each fallback part is where the merge pastes its image |
| Launch.FirstShell | api/transcribe_website.py:142-146 | the result is the headless shell of the first entry, in the given order, whose shell exists; there is none exactly when no entry has one |
| Launch.ResolveHeadlessShell | api/transcribe_website.py:137-146 | there is no shell when the browsers folder is missing; otherwise the result is the first existing shell in reverse name order |
| Launch.ResolvedShellIsLatest | api/transcribe_website.py:142-146 | the entries are visited in descending order, each once; the chosen shell exists and no earlier entry's does |
| Launch.LaunchBrowser | api/transcribe_website.py:156-198 | strategies are tried in their fixed order, each at most once, stopping at the first that starts; the launch raises the fixed message exactly when none starts |
| Launch.StrategiesDistinct | api/transcribe_website.py:175-191 | the order is new-headless Chromium, Chrome channel, headless shell (only when one was found), Firefox, WebKit, with no repeats |
| Page.SanitizeHtml | api/transcribe_website.py:502-511 | the sanitised page always mentions `<base` (case-insensitively) |
| Page.SanitizeAddsOnlyBaseTag | api/transcribe_website.py:502-511 | a script-free text that already has a base tag is kept as is; otherwise the only change is exactly one base tag, inserted after the first `<head>` or at the start |
| Page.SanitizeIdempotent | api/transcribe_website.py:502-511 | sanitising twice is sanitising once, when script stripping leaves its own output alone |
| Page.ResolveLocalHtmlPath | api/transcribe_website.py:247-267 | a directory resolves to its index.html, else its index.htm, else an error; an existing file resolves to itself; a missing or odd path is an error with its own message |
| Page.ResolvedEntryInsideDirectory | api/transcribe_website.py:252-256 | a resolved directory entry is an index file directly inside that directory |
| Page.MetaField | api/transcribe_website.py:300-305 | the field is non-empty exactly when the tag exists with non-empty content, and then it is that content |
| Page.CollectMeta | api/transcribe_website.py:297-314 | the meta data is the title, and the first description and keywords contents, "" when absent |
| Page.ExtractTextEmpty | api/transcribe_website.py:582-598 | the reply text is empty exactly when there is no response, or it has no text and no candidate part has text |
| Page.ExtractTextSplits | api/transcribe_website.py:590-598 | without a top-level text, and with some part text and none holding a newline, the reply splits on newlines back into the candidates' part texts, in order |
| Ocr.RunGeminiOcr | api/transcribe_website.py:601-670 | OCR gives "" when Gemini is off or the call raised, and otherwise the stripped reply text; the result is always stripped |
| Ocr.RunOcrOnSegments | api/transcribe_website.py:673-735 | without Gemini every band gets an empty record in band order; with Gemini the records are collected in completion order and sorted stably by band number |
| Ocr.SkipAll | api/transcribe_website.py:675-689 | the loop gives every band its empty record, in order |
| Ocr.CollectInOrder | api/transcribe_website.py:723-729 | the `as_completed` loop gives the record of each band in the order the calls complete |
| Ocr.OcrResultsArePerSegment | api/transcribe_website.py:673-735 | whatever order the calls complete in, the sorted records are exactly the records of all bands, each once, in band-number order |
| Ocr.OcrResultsInBandOrder | api/transcribe_website.py:723-732 | for bands numbered in increasing order, the sorted record k is the record of band k |
| Ocr.ProcessedFields | api/transcribe_website.py:693-718 | a band's record copies its number, path, top and bottom, holds the stripped OCR text, and holds that text cleaned |
| Ocr.SkippedFields | api/transcribe_website.py:675-689 | without Gemini each record copies its band's fields and has empty texts |
| Stitch.CleanOcrText | api/transcribe_website.py:738-776 | the method returns "" for an empty text, and otherwise the paragraphs `CleanParagraphs` joined by newlines: the first paragraph of each space-free key, in their order (`Stitch.CleanParagraphsFirstOccurrence`), broken where `Stitch.ParagraphBreaks` says |
| Stitch.KeepLines | api/transcribe_website.py:742-749 | the loop keeps the stripped lines that are neither blank nor made only of non-word characters |
| Stitch.BuildParagraphs | api/transcribe_website.py:754-764 | the loop returns `Paragraphs(lines, [])`, the gluing whose break points `Stitch.ParagraphBreaks` states |
| Stitch.ParagraphBreaks | api/transcribe_website.py:754-764 | the lines fall into consecutive non-empty groups, one per paragraph, each paragraph its group glued with ""; every group but the last ends with a line ending in 。！？!? or longer than 40 characters, and no other line is such a line |
| Stitch.DedupBySpaceFree | api/transcribe_website.py:766-774 | the loop returns the keep-first deduplication on the key with ASCII spaces removed, whose first-occurrence and order properties `DedupFilter.DedupFirstOccurrence` states |
| Stitch.KeptLinesFacts | api/transcribe_website.py:743-749 | every kept line is stripped, non-empty and has a word character |
| Stitch.ParagraphsKeepText | api/transcribe_website.py:757-764 | gluing loses and adds nothing: the paragraphs run together equal the lines run together |
| Stitch.ParagraphsTrimmed | api/transcribe_website.py:754-764 | paragraphs of stripped lines are stripped and non-empty, and there are none exactly when there are no lines |
| Stitch.CleanParagraphsTrimmed | api/transcribe_website.py:738-776 | the deduplicated paragraphs are stripped and non-empty, and there are none exactly when no line was kept |
| Stitch.CleanTextEmpty | api/transcribe_website.py:739-752 | the cleaned text is "" exactly when no line survives the filter |
| Stitch.CleanTextLines | api/transcribe_website.py:766-776 | the cleaned text splits on newlines back into its paragraphs; no two have the same space-free key, and each is stripped and non-empty |
| Stitch.CleanParagraphsFromLines | api/transcribe_website.py:754-776 | every kept paragraph is one of the glued paragraphs |
| Stitch.CleanParagraphsFirstOccurrence | api/transcribe_website.py:754-776 | the kept paragraphs are, in their order, exactly the glued paragraphs whose space-free key no earlier paragraph has; the paragraphs break as `Stitch.ParagraphBreaks` says |
| Stitch.CombineCleanSegments | api/transcribe_website.py:779-794 | the method returns the paragraphs `CombinedParagraphs` joined by blank lines: the first occurrence of each paragraph over all bands, in band and line order (`Stitch.CombinedFirstOccurrence`) |
| Stitch.SegmentParagraphsEmpty | api/transcribe_website.py:784-788 | a band contributes no paragraph exactly when its clean text is blank, and its paragraphs are stripped |
| Stitch.AllParagraphsFacts | api/transcribe_website.py:783-788 | all bands' paragraphs are stripped and non-empty, and there are none exactly when every band's text is blank |
| Stitch.CombinedParagraphsFacts | api/transcribe_website.py:783-792 | the combined paragraphs are stripped, pairwise different, and each comes from some band |
| Stitch.CombinedCovers | api/transcribe_website.py:783-792 | every paragraph of every band appears in the combined paragraphs |
| Stitch.CombinedFirstOccurrence | api/transcribe_website.py:783-792 | the combined paragraphs are, in their order, exactly the band paragraphs that no earlier band paragraph equals |
| Stitch.CombinedExample | api/transcribe_website.py:779-792 | the bands "A.\nB.\nA." and "B.\nC." combine to the paragraphs "A.", "B.", "C.": a repeat within a band and a repeat from an earlier band are both dropped |
| Stitch.CombinedTextEmpty | api/transcribe_website.py:779-794 | the combined text is "" exactly when every band's clean text is blank |
| Stitch.CombinedTextSplits | api/transcribe_website.py:794 | the combined text splits on newlines into the paragraphs with one empty line between each two |
| Stitch.CombineIdempotent | api/transcribe_website.py:779-794 | combining a combined text again changes nothing |
| Pipeline.TranscribeWebsite | api/transcribe_website.py:888-1050 | the transcription gives `TranscribeSpec`; it makes one interactive attempt with JavaScript, and a second without it exactly when a browser started and the first capture failed |
| Pipeline.CaptureStaticRender | api/transcribe_website.py:514-561 | the static render is `StaticRender`: any missing `requests`, failed download or unstartable browser is an error with its own message, and otherwise the sanitised page is captured |
| Pipeline.FinishTranscript | api/transcribe_website.py:1012-1041 | the finishing step is `Finish`: one band stands in for the picture when none was recorded, then OCR, then the combined text, with the visible text used when that is empty |
| Pipeline.TranscribeFailsIff | api/transcribe_website.py:929-1010 | the transcription fails exactly when no browser starts for an attempt it makes, or both attempts and the static render fail; the error is the launch message or names both causes |
| Pipeline.InteractiveCaptureWins | api/transcribe_website.py:929-1004 | the first successful attempt wins, and the static render decides only after both failed |
| Pipeline.CapturedBandsNumbered | api/transcribe_website.py:487-499 | a successful capture numbers its bands 1, 2, … |
| Pipeline.ChainBandsNumbered | api/transcribe_website.py:929-1020 | whichever way the capture succeeded, the bands handed to OCR are numbered 1, 2, … |
| Pipeline.TranscriptRecords | api/transcribe_website.py:1012-1025 | the transcript has one record per band (at least one), in band order, OCR'd or empty as Gemini is available |
| Pipeline.TranscriptText | api/transcribe_website.py:1025-1038 | the visible text is "", the combined text is that of the records' clean texts, and it is "" exactly when every clean text is blank |
| Pipeline.ChainVisibleTextEmpty | api/transcribe_website.py:487-499 | every capture hands back an empty visible text |
| Jobs.UploadReply | api/app.py:108-139 | an upload fails with 400 when the name does not end in .html/.htm, with 500 when saving fails, and otherwise starts a job |
| Jobs.UploadNeedsHtmlName | api/app.py:111-112 | `page.HTML` is rejected (the check is case-sensitive) and `page.html` is accepted |
| Jobs.FileFor | api/app.py:165-173 | a file type has a path exactly when it is markdown, text or screenshot, and these name the result's markdown, text and screenshot paths in turn |
| Jobs.JobTable.TranscribeUrl | api/app.py:85-105 | a new job is entered as processing at progress 0, nothing else changes, and the reply says it started |
| Jobs.JobTable.TranscribeUpload | api/app.py:108-139 | a rejected upload leaves the table alone; an accepted one enters a new job and keeps its temporary file |
| Jobs.JobTable.GetStatus | api/app.py:142-148 | an unknown id is a 404; otherwise the stored entry is returned unchanged |
| Jobs.JobTable.DownloadFile | api/app.py:151-182 | the download follows the ordered checks of `Download` on the table |
| Jobs.DownloadSucceedsIff | api/app.py:151-182 | a download succeeds exactly when the job exists, is completed, has a result, the file type is known and the file exists; the file served is the one the requested type names (markdown, text or screenshot path); an unknown id is a 404 and an unfinished job a 400 |
| Jobs.JobTable.RunWorker | api/app.py:185-244 | the worker replaces only its job's entry, by `WorkerJob`, and sets the progress values listed by `WorkerTrace` |
| Jobs.JobTable.ProcessUrlTranscription | api/app.py:185-244 | the URL worker's entry records the URL as its source |
| Jobs.JobTable.ProcessLocalTranscription | api/app.py:247-314 | the entry is `LocalJob`: the worker's entry recording the path, turned to error when deleting the temporary file raises after completion; the files left are `LocalFilesLeft`: the temporary file is gone once a deletion, in the `try` or the retry in the `except`, succeeded |
| Jobs.WorkerEndsJob | api/app.py:185-244 | a worker leaves its job completed at progress 100, with the result, exactly when transcription and saving both succeed; otherwise error, with the error text and no result |
| Jobs.WorkerTraceOrdered | api/app.py:187-229 | progress runs through a prefix of 10, 50, 80, 100, strictly increasing, and is complete exactly on success |
| Jobs.WorkerSegments | api/app.py:217-239 | the result holds one entry per band, with its number, clean text, top and bottom, and counts them |
| Jobs.LocalDeletionSucceeds | api/app.py:247-314 | when the temporary file's deletion succeeds, the local worker leaves the entry any worker leaves and the file is gone |
| Jobs.LocalDeletionFails | api/app.py:289-310 | a deletion that raises after the local job completed turns the entry to error with the error text while it keeps progress 100 and its result, an entry outside `WellFormed` |
| Jobs.WellFormedKept | api/app.py:90-244 | creating a job, and finishing a processing one, keep every entry consistent: a result only when completed, an error only on failure |
| Jobs.DownloadFollowsWorker | api/app.py:151-244 | a fresh job cannot be downloaded; a failed job never can; a completed one serves its saved Markdown and text files and its screenshot once they exist, and refuses an unknown type |
| Gui.Slugify | gui_app.py:43-47 | the slug is never empty, has no `_` at either end, and holds only characters of the slug class |
| Gui.CollapsedChars | gui_app.py:46 | the substitution leaves only kept characters and `_` |
| Gui.TrimOrDefault | gui_app.py:46-47 | stripping `_` leaves a non-empty text without edge `_` made of the input's characters, or "default" |
| Gui.RunBecomesOneUnderscore | gui_app.py:46 | each maximal run of characters outside the class becomes exactly one `_` |
| Gui.CollapseAppend | gui_app.py:46 | substituting a concatenation substitutes each part, the second knowing whether a run was open |
| Gui.CollapseKeepsText | gui_app.py:46 | a text made only of class characters is left as it is |
| Gui.SlugifyOfSlug | gui_app.py:43-47 | a valid slug that folding leaves alone is its own slug |
| Gui.SlugifyIdempotent | gui_app.py:43-47 | slugifying a slug again changes nothing, when folding leaves the slug alone |
| Gui.ParseInt | gui_app.py:823-832 | the value is read exactly when the text is an integer literal as `int()` reads it, in ASCII digits, and the number is not below the minimum; it is then that number |
| Gui.ParseIntOfDecimal | gui_app.py:823-832 | the decimal text of a number is read back as that number exactly when it is not below the minimum |
| Gui.ReadCaptureSettingsAsWritten | gui_app.py:795-803 | as written, the form accepts the settings exactly when the height is at least 1 and the overlap at least 0 |
| Gui.OverlapEqualToHeightAccepted | gui_app.py:795-800 | as written, equal height and overlap ("1400" and "1400") are accepted; the corrected check turns them down |
| Gui.ReadCaptureSettings | gui_app.py:795-803 | corrected, every accepted pair has 0 ≤ overlap < height, and it turns down only the pairs the form accepted with overlap ≥ height |
| Gui.ReadCaptureSettingsOfDecimal | gui_app.py:795-803 | corrected, the decimal texts of a height and an overlap are accepted exactly when 0 ≤ overlap < height, and are then read back unchanged |
| Gui.BlankLine | gui_app.py:663-665 | a blank line shows no status and announces no path |
| Gui.TranscriptPath | gui_app.py:679-682 | an announced transcript path is non-empty and stripped; which path a line announces is stated by `Gui.TranscriptPathOfLine` |
| Gui.AnalysisPath | gui_app.py:683-687 | an announced analysis path is non-empty and stripped, never says it was not generated, and never comes from a transcript line; which path is stated by `Gui.AnalysisPathOfLine` |
| Gui.TranscriptPathOfLine | gui_app.py:667-682 | a line of leading white space, bullets and white space, the transcript prefix, a space and a stripped non-empty path announces exactly that path, the text after the first colon, even when the path has colons of its own; it announces no analysis path |
| Gui.AnalysisPathOfLine | gui_app.py:667-687 | the same line with the analysis prefix announces its path unless the path contains "生成されていません", and then none; it announces no transcript path |
| Gui.PrintedPathLines | gui_app.py:667-687 | the lines `  - 文字起こし Markdown: <path>` and `  - Gemini 分析結果: <path>` that the pipeline prints, and the same with a "•" bullet or no lead, announce their path |
| Gui.TranscriptPathExample | gui_app.py:679-682 | the line for a transcript at `C:\out.md` announces `C:\out.md`: only the first colon splits |
| Gui.AnalysisNotGeneratedExample | gui_app.py:683-687 | the line `  - Gemini 分析結果: 生成されていません。` announces no analysis path |
| Gui.PipelineResults.constructor | gui_app.py:485 | both lists of result paths start empty |
| Gui.PipelineResults.ProcessStdoutLine | gui_app.py:662-687 | the line's status is shown, an announced new path is appended to its own list only when not already there, and a transcript line leaves the analysis list alone |
| Gui.PipelineResults.ProcessStdout | gui_app.py:632-634 | after the output loop, each list is the old list with every announced path added in turn |
| Gui.AddAllIsDedup | gui_app.py:679-687 | adding paths one by one keeps the first occurrence of each path not yet listed, in order |
| Gui.Recorded | gui_app.py:662-687 | from an empty list, the recorded paths are the announced paths deduplicated, none twice, each announced by some line |
| Gui.RecordedPaths | gui_app.py:662-687 | after a run, transcript paths are distinct, stripped and non-empty, and analysis paths are distinct, non-empty and never say they were not generated |
| Gui.CollectAdUrls | gui_app.py:517-524 | the loop gives the first occurrence of each non-empty stripped ad URL, and the count is their number |
| Gui.StrippedUrlsOf | gui_app.py:519-523 | a URL is collected exactly when it is the non-empty stripped URL of some ad |
| Gui.AdUrlsShape | gui_app.py:517-524 | the ad URLs are distinct, stripped and non-empty, and every ad's non-empty URL is among them |
| Gui.UrlFileText | gui_app.py:526-530 | the URL file starts with the typed URLs and ends with a newline |
| Gui.UrlFileLines | gui_app.py:526-530 | after the typed URLs, the file holds the ad URLs one per line |
| Gui.UrlArg | gui_app.py:546-556 | the URL argument is empty, or a `--url-list`/`--url` flag with a non-empty value |
| Gui.UrlArgPriority | gui_app.py:546-556 | the temporary file beats the chosen URL list, which beats the single URL (single mode only); there is none exactly when none of them is given |
| Gui.BuildCommand | gui_app.py:558-598 | there is no command exactly when there is no URL argument and the search is off; otherwise it is `Command` |
| Gui.CommandPrefix | gui_app.py:568-581 | the fixed start has twelve words |
| Gui.CommandPositions | gui_app.py:568-598 | the band height and overlap follow their flags; the URL argument follows the fixed start, and the search, skip and summary groups follow it in order |
| Gui.CommandArguments | gui_app.py:568-588 | the pipeline reads the band height, overlap and search limit after their flags back as the numbers given |
| Gui.CommandEndsWithSummary | gui_app.py:596-598 | a given summary output is the last group of the command |
| Summarize.FirstMarkedLine | search_man/summarize_analyses.py:51-53 | the result is the first line that starts with the URL marker once stripped; there is none exactly when no line does |
| Summarize.ExtractUrlCases | search_man/summarize_analyses.py:47-55 | a missing file or no marked line gives "N/A"; otherwise the URL is the stripped text after the marker on the first marked line |
| Summarize.RequestUrlRoundTrip | search_man/summarize_analyses.py:47-55 | a request whose first line is the marker and a URL gives back that URL |
| Summarize.RunDirsIn | search_man/summarize_analyses.py:59-60 | exactly the listing's directories named `run_*` are kept |
| Summarize.SliceStart | search_man/summarize_analyses.py:65 | Python's normalised slice start stays within the list |
| Summarize.Latest | search_man/summarize_analyses.py:64-65 | `[-latest:]` keeps a suffix of the sorted runs |
| Summarize.LatestCases | search_man/summarize_analyses.py:64-65 | no limit or 0 keeps all runs; a positive limit keeps that many at most; a negative one drops that many from the front |
| Summarize.SortedRunDirsShape | search_man/summarize_analyses.py:59-62 | the runs are sorted by name and are exactly the listing's run directories |
| Summarize.LatestRunDirs | search_man/summarize_analyses.py:58-65 | the kept runs are in name order and are run directories of the listing |
| Summarize.CollectAnalysisEntries | search_man/summarize_analyses.py:58-86 | the loop gives the entries of the kept runs that have an analysis, in order |
| Summarize.EntriesFrom | search_man/summarize_analyses.py:67-86 | every entry comes from a run with an analysis, and every such run has its entry |
| Summarize.EntriesInOrder | search_man/summarize_analyses.py:67-86 | runs in name order give entries in run-directory order |
| Summarize.CollectedEntries | search_man/summarize_analyses.py:58-86 | the entries are in order, each from a kept run directory with an analysis, and every kept run with an analysis has its entry |
| Summarize.Blocks | search_man/summarize_analyses.py:95-104 | there is one block per entry |
| Summarize.BuildPrompt | search_man/summarize_analyses.py:89-107 | a missing template raises; otherwise the prompt is the template with the blocks put in |
| Summarize.BlocksNumbered | search_man/summarize_analyses.py:96-104 | block k is the block of entry k, numbered from the start value |
| Summarize.BlockShape | search_man/summarize_analyses.py:97-104 | a block starts with its `### サイト` header and URL line, and ends with the analysis text |
| Summarize.PromptBlocks | search_man/summarize_analyses.py:95-106 | block k, counting from 1, starts with header k+1 and entry k's URL, and ends with its analysis |
| Summarize.PromptWithoutPlaceholder | search_man/summarize_analyses.py:107 | a template without `{{ANALYSES}}` is the prompt unchanged |
| Summarize.PromptOfPlaceholder | search_man/summarize_analyses.py:106-107 | a template that is just the placeholder gives the blocks joined by blank lines |
| Summarize.CollectResponseText | search_man/summarize_analyses.py:122-135 | the `text +=` loops compute the reply text `ResponseText` |
| Summarize.CollectPartTexts | search_man/summarize_analyses.py:131-134 | the part loop runs the non-empty part texts together |
| Summarize.RunGemini | search_man/summarize_analyses.py:110-140 | the report fails exactly when there is no key, the call raised or the reply text is empty; otherwise it is the reply text, stripped and non-empty |
| Summarize.ReplyPartsConcatenated | search_man/summarize_analyses.py:126-135 | without a top-level text, the parts of two candidates run together with no separator before stripping |
| Sorting.SortBySorted | api/transcribe_website.py:732 | the stable sort orders its result by any total, transitive order (by band number, by name) |
| Sorting.SortByStable | api/transcribe_website.py:732 | the sort is stable: the elements the order ranks equal to any given one come out in their input order |
| Sorting.StringOrders | api/transcribe_website.py:142 | string order and its reverse are total and transitive |
| DedupFilter.DedupKeys | api/transcribe_website.py:766-774 | keep-first deduplication keeps elements of the input whose keys are new, and no key twice; the kept elements sit at increasing positions of the input, each the first with its key, and every first occurrence of an unseen key is kept |
| DedupFilter.DedupFirstOccurrence | api/transcribe_website.py:766-774 | from an empty seen set, the result is exactly the first occurrences of each key, in input order |
| DedupFilter.DedupCovers | api/transcribe_website.py:766-774 | every input element's key is already seen, or some kept element has it |
| DedupFilter.DedupIdempotent | api/transcribe_website.py:766-774 | deduplicating twice is deduplicating once |
| Decimal.ParseIntRoundTrip | gui_app.py:823-826 | `int()` reads an integer's decimal text back as that integer |
| Decimal.ZeroPadInjective | api/transcribe_website.py:360 | zero-padded numbers of one width are equal only for equal numbers |

## Left out

- Playwright itself is not modelled: navigation, scrolling, sleeping, taking screenshots and resizing. The page is a height, a viewport and the errors its steps raise.
- `load_page`'s swallowed timeout and `scroll_page` are left out: they change nothing the model observes.
- Gemini, `genai.configure` and the OCR prompt text are left out. An OCR call is an oracle reply, `GeminiReply`, per band.
- The report's call is likewise an outcome parameter, `GenerateOutcome`.
- The HTTP download is an outcome parameter, `StaticEnv.download`.
- The thread pools (three OCR workers, the FastAPI executor, the GUI threads) are left out. OCR completion order is a parameter constrained to be a rearrangement of the bands. Each job's worker is one step on the table, so the in-between progress values 10, 50 and 80 that `get_status` could see mid-run are stated as the trace `WorkerTrace`, not as table states.
- These regular expressions and Unicode operations are parameters:
  - the script-stripping regex;
  - the `[\W_]+` test (`wordChar`);
  - NFKC normalisation with `lower()` in `slugify` (`fold`).
- The character class of `slugify` after folding, `strip`'s white-space set and the `<base` test's `lower()` (ASCII letters only) are concrete.
- `str.splitlines` is modelled as a split on each line-break character. `"\r\n"` then yields an extra empty line. Every caller drops blank lines, so the results agree.
- These file-system and OS operations are left out:
  - `get_output_root`;
  - the macOS quarantine and crash-pad setup;
  - `build_browser_env`;
  - `save_markdown`, `save_plain_text`, `cleanup_segment_images` and `update_latest_symlink`;
  - the GUI's temporary file and `subprocess.Popen`.
- Saving is an outcome parameter of the worker. `update_latest_symlink` swallows its own errors, so a URL worker that reaches progress 80 always completes. The local worker can still end in error after completing, when deleting its temporary file raises (`Jobs.LocalDeletionFails`); what the deletions do is a parameter, `Unlink`, and an exception that escapes the worker's `except` is not modelled beyond the table and the files it leaves.
- Jobs.WellFormedKept: covers creating a job and the entry `WorkerJob` leaves; the local worker's entry after a failed deletion is outside `WellFormed`, as `Jobs.LocalDeletionFails` shows.
- Slicing.CeilDiv: `math.ceil(total_height / viewport_height)` divides in floating point; the integer `CeilDiv` agrees with it while the quotient is exact in a double, which holds for page heights below about 2^53 pixels.
- File existence and file contents are parameters: a `string -> Node` file system, `Option` texts, and `fileExists`.
- Clocks, job ids (`uuid4`) and run-directory names are parameters.
- `transcribe_local_html` is represented only through the local worker's outcome parameter.
- The web API imports `transcribe_website` from `search_man copy/transcribe_website.py`. That file is not part of this model; the model uses `api/transcribe_website.py`, whose text is the same.
- The UI, CLI and server plumbing are left out: tkinter widgets and message boxes, `_display_pipeline_results`, `parse_args` and `main`, and the FastAPI decorators, CORS and `FileResponse`.
- Slicing.SliceSegments: requires `overlap < slice_height`. As written, the code does not check this, and its loop never ends otherwise (see Findings). Negative overlaps, which the command line accepts, are modelled.
- Capture.CapturePageScreenshots, Capture.CaptureSpec, Capture.CaptureAsWritten, Pipeline.LoadAndCapture, Pipeline.TranscribeWebsite and the other capture members also require `slice_height >= 1`: setting a viewport of non-positive height is a Playwright call whose outcome is not modelled.
- Slicing.PrimarySlicesCover and Slicing.PrimarySlicesOverlap require `overlap >= 0`: with a negative overlap the bands leave gaps (`Slicing.PrimarySlicesGap`).
- Gui.ParseInt: only ASCII digits are modelled; `int()` also accepts other Unicode decimal digits (full-width "１４００" reads as 1400), which the model reads as not a number.
- Slicing.ViewportHeight: viewport heights are `nat`, so a negative height, which Python's `or 1` would keep, is not modelled.
- Page.ChildPath: `pathlib`'s `/` is modelled as joining with "/"; its normalisation of absolute, empty or slash-ended names is not modelled.
- Capture.CapturePageScreenshots and the pipeline use the corrected capture.
- Capture.CaptureAsWritten: the as-written capture is a function beside the corrected one.
- Capture.CapturePageScreenshots: the primary images are taken to be band-tall viewport shots. Only their count matters to the merge's success.
- Pipeline.TranscribeWebsite: the later checks `not screenshot_path` (993 and 1022) are left out. The merged picture's path is always set once a capture succeeds, so they are dead code.
- Slicing.CaptureFallbackSegments and Slicing.SliceSegments take the naming scheme of the band files as a parameter. Their callers pass `PrimaryPaths`/`FallbackPaths`, which are `segment_NNNN.png`/`segment_NN.png` under the run's `segments` folder.
- Summarize.CollectAnalysisEntries: `iterdir`'s is-a-directory test is a field of each listing entry, and the two files of a run are `Option` texts.

## Findings

| source | as written | input that shows it | evidently intended | confidence | as-written member | corrected member |
|---|---|---|---|---|---|---|
| api/transcribe_website.py:391-421 | `screenshot_path` is bound only after the slicer finished, yet the fallback branch returns it, so any exception raised by the slicer itself makes the fallback's `return` raise an unbound-variable error | a 3000 px page whose slicer screenshot times out after the resize (`Capture.SlicerErrorExample`) | bind the merged picture's path before slicing, so the fallback's parts are returned | not executed | Capture.CaptureAsWritten, Capture.AsWrittenSucceedsIff | Capture.CaptureSpec, Capture.CaptureSucceedsIff, Capture.FallbackRecovers |
| gui_app.py:795-800 | the form checks only height ≥ 1 and overlap ≥ 0, so an overlap equal to or above the band height is passed on, and the slicer's `current_top` then never advances (api/transcribe_website.py:377) | height "1400" and overlap "1400" (`Gui.OverlapEqualToHeightAccepted`) | also require overlap < height, as the slicer needs | not executed | Gui.ReadCaptureSettingsAsWritten, Gui.OverlapEqualToHeightAccepted | Gui.ReadCaptureSettings, Gui.ReadCaptureSettingsOfDecimal |
