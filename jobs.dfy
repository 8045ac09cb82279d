/** The web API's job table: one entry per transcription job, created when a request comes
    in and filled in by the background worker step by step. */
module Jobs {
  import opened Results
  import opened Strings
  import opened Ocr
  import opened Pipeline

  /** "processing", "completed" or "error". */
  datatype Status = Processing | Completed | Error

  /** One band of a finished job, as the status reply shows it. */
  datatype SegmentData = SegmentData(index: int, text: string, top: int, bottom: int)

  /** Where a job's page came from: a URL, or an uploaded HTML file. */
  datatype Source = SourceUrl(url: string) | SourcePath(path: string)

  datatype JobResult = JobResult(
    transcript: string, segments: seq<SegmentData>, markdownPath: string, textPath: string,
    screenshotPath: string, runDir: string, segmentsCount: nat, source: Source)

  /** An entry of `processing_status`; an absent key is `None`. */
  datatype Job = Job(status: Status, message: string, progress: int, createdAt: string,
                     result: Option<JobResult>, error: Option<string>)

  /** An `HTTPException`: its status code and detail. */
  datatype HttpError = HttpError(code: int, detail: string)

  /** The reply to a request that started a job. */
  datatype Started = Started(jobId: string, status: string, message: string)

  const StartedMessage: string := "処理を開始しました"
  const UrlLoadingMessage: string := "ページを読み込み中..."
  const HtmlLoadingMessage: string := "HTMLファイルを読み込み中..."
  const CapturedMessage: string := "スクリーンショット取得完了"
  const SavingMessage: string := "結果を保存中..."
  const DoneMessage: string := "処理完了！"
  const ErrorMessage: string := "エラーが発生しました"

  const UnknownJob: HttpError := HttpError(404, "Job ID が見つかりません")
  const NotCompleted: HttpError := HttpError(400, "処理が完了していません")
  const NoResult: HttpError := HttpError(500, "結果が見つかりません")
  const BadFileType: HttpError := HttpError(400, "無効なファイルタイプです")
  const FileMissing: HttpError := HttpError(404, "ファイルが見つかりません")
  const NotHtml: HttpError := HttpError(400, "HTMLファイル(.html, .htm)のみ対応しています")

  function SaveFailed(e: string): HttpError {
    HttpError(500, "ファイル保存エラー: " + e)
  }

  /** The entry a new job starts with. */
  function NewJob(createdAt: string): Job {
    Job(Processing, StartedMessage, 0, createdAt, None, None)
  }

  /** The path under which an upload is kept until its job is done. */
  function TempPath(tempDir: string, jobId: string, filename: string): string {
    tempDir + "/" + jobId + "_" + filename
  }

  predicate IsHtmlName(filename: string) {
    EndsWith(filename, ".html") || EndsWith(filename, ".htm")
  }

  /** The reply to an upload: 400 for a name not ending in `.html` or `.htm`, 500 when the
      file cannot be saved, otherwise the started job. */
  function UploadReply(jobId: string, filename: string, saveError: Option<string>): (r: Result<Started, HttpError>)
    ensures r.Failure? <==> !IsHtmlName(filename) || saveError.Some?
    ensures !IsHtmlName(filename) ==> r == Failure(NotHtml)
    ensures IsHtmlName(filename) && saveError.Some? ==> r.error.code == 500
    ensures r.Success? ==> r.value == Started(jobId, "processing", StartedMessage)
  {
    if !IsHtmlName(filename) then Failure(NotHtml)
    else if saveError.Some? then Failure(SaveFailed(saveError.value))
    else Success(Started(jobId, "processing", StartedMessage))
  }

  /** What the worker meets: the transcription's result (with the run directory) or the
      message of the exception it raised, and the saved Markdown and text files or the
      message of the exception saving them raised. */
  datatype Transcribed = Transcribed(transcript: Transcript, runDir: string)
  datatype Saved = Saved(markdownPath: string, textPath: string)
  datatype WorkerOutcome = WorkerOutcome(transcription: Result<Transcribed, string>, saved: Result<Saved, string>)

  function SegmentDataOf(r: OcrResult): SegmentData {
    SegmentData(r.index, r.cleanText, r.top, r.bottom)
  }

  /** `combined_text or visible_text or ""`. */
  function TranscriptOf(t: Transcript): string {
    if t.combinedText != "" then t.combinedText else t.visibleText
  }

  function ResultOf(tr: Transcribed, saved: Saved, source: Source): JobResult {
    var t := tr.transcript;
    JobResult(TranscriptOf(t), MapSeq(SegmentDataOf, t.segments), saved.markdownPath, saved.textPath,
              t.screenshot, tr.runDir, |t.segments|, source)
  }

  /** The `except` branch of a worker. */
  function Failed(job: Job, e: string): Job {
    job.(status := Error, message := ErrorMessage, error := Some(e))
  }

  /** The entry a worker leaves: the progress it had reached when something raised, with the
      error, or the completed entry with its result. */
  function WorkerJob(job: Job, loading: string, outcome: WorkerOutcome, source: Source): Job {
    var loaded := job.(message := loading, progress := 10);
    match outcome.transcription
    case Failure(e) => Failed(loaded, e)
    case Success(tr) =>
      var captured := loaded.(message := CapturedMessage, progress := 50);
      match outcome.saved
      case Failure(e) => Failed(captured, e)
      case Success(saved) =>
        var saving := captured.(message := SavingMessage, progress := 80);
        saving.(status := Completed, message := DoneMessage, progress := 100,
                result := Some(ResultOf(tr, saved, source)))
  }

  /** What `html_path.unlink()` does: removes the file, or raises with the error's text. */
  datatype Unlink = Unlinked | UnlinkRaised(error: string)

  /** The entry `process_local_transcription` leaves. The temporary file is deleted inside
      the `try` after the entry was completed, so a deletion that raises there sends the
      completed entry through the `except`: it becomes an error entry that keeps its result. */
  function LocalJob(job: Job, outcome: WorkerOutcome, htmlPath: string, fileExists: bool, deletion: Unlink): Job {
    var done := WorkerJob(job, HtmlLoadingMessage, outcome, SourcePath(htmlPath));
    if fileExists && done.status == Completed && deletion.UnlinkRaised? then Failed(done, deletion.error)
    else done
  }

  /** The temporary files left after `process_local_transcription`. The first deletion is the
      one in the `try` after a completed job, or the one in the `except` after a failed one; a
      first deletion that raised after completion is retried by the `except` (`retry`). A
      deletion that raises in the `except` escapes the worker and leaves the file. */
  function LocalFilesLeft(tempFiles: set<string>, htmlPath: string, completed: bool, deletion: Unlink, retry: Unlink)
    : set<string>
  {
    if htmlPath !in tempFiles then tempFiles
    else if deletion.Unlinked? then tempFiles - {htmlPath}
    else if completed && retry.Unlinked? then tempFiles - {htmlPath}
    else tempFiles
  }

  /** The progress values a worker sets, in order. */
  function WorkerTrace(outcome: WorkerOutcome): seq<int> {
    if outcome.transcription.Failure? then [10]
    else if outcome.saved.Failure? then [10, 50]
    else [10, 50, 80, 100]
  }

  /** What every entry between requests satisfies: a job still processing is as it was
      created, a completed one has its result and no error, a failed one its error and no
      result. */
  predicate WellFormed(job: Job) {
    && (job.status == Processing ==> job.progress == 0 && job.message == StartedMessage)
    && (job.result.Some? <==> job.status == Completed)
    && (job.error.Some? <==> job.status == Error)
  }

  predicate TableWellFormed(jobs: map<string, Job>) {
    forall id :: id in jobs ==> WellFormed(jobs[id])
  }

  /** The file of a result that a download type names, if it names one. */
  function FileFor(result: JobResult, fileType: string): (p: Option<string>)
    ensures p.Some? <==> fileType in {"markdown", "text", "screenshot"}
    ensures fileType == "markdown" ==> p == Some(result.markdownPath)
    ensures fileType == "text" ==> p == Some(result.textPath)
    ensures fileType == "screenshot" ==> p == Some(result.screenshotPath)
  {
    if fileType == "markdown" then Some(result.markdownPath)
    else if fileType == "text" then Some(result.textPath)
    else if fileType == "screenshot" then Some(result.screenshotPath)
    else None
  }

  /** `download_file`'s checks, in order: unknown job, job not completed, no result, unknown
      file type, file missing; otherwise the file to serve. */
  function Download(jobs: map<string, Job>, jobId: string, fileType: string, fileExists: string -> bool)
    : Result<string, HttpError>
  {
    if jobId !in jobs then Failure(UnknownJob)
    else if jobs[jobId].status != Completed then Failure(NotCompleted)
    else if jobs[jobId].result.None? then Failure(NoResult)
    else
      var path := FileFor(jobs[jobId].result.value, fileType);
      if path.None? then Failure(BadFileType)
      else if !fileExists(path.value) then Failure(FileMissing)
      else Success(path.value)
  }

  /** The table of `processing_status`, and the uploaded files waiting in the temporary
      directory. */
  class JobTable {
    var jobs: map<string, Job>
    var tempFiles: set<string>
    const tempDir: string

    constructor(tempDir: string)
      ensures jobs == map[] && tempFiles == {} && this.tempDir == tempDir
    {
      jobs := map[];
      tempFiles := {};
      this.tempDir := tempDir;
    }

    /** `transcribe_url`: a new entry under the fresh id `jobId`; the worker is started
        separately. */
    method TranscribeUrl(jobId: string, createdAt: string) returns (r: Started)
      modifies this
      ensures jobs == old(jobs)[jobId := NewJob(createdAt)] && tempFiles == old(tempFiles)
      ensures r == Started(jobId, "processing", StartedMessage)
    {
      jobs := jobs[jobId := NewJob(createdAt)];
      r := Started(jobId, "processing", StartedMessage);
    }

    /** `transcribe_upload`: rejects a name that is not HTML before anything is created,
        saves the file, then creates the entry. `saveError` is what saving raised, if
        anything. */
    method TranscribeUpload(jobId: string, filename: string, createdAt: string, saveError: Option<string>)
      returns (r: Result<Started, HttpError>)
      modifies this
      ensures r == UploadReply(jobId, filename, saveError)
      ensures r.Failure? ==> jobs == old(jobs) && tempFiles == old(tempFiles)
      ensures r.Success? ==> jobs == old(jobs)[jobId := NewJob(createdAt)]
                             && tempFiles == old(tempFiles) + {TempPath(tempDir, jobId, filename)}
    {
      if !IsHtmlName(filename) {
        return Failure(NotHtml);
      }
      var path := TempPath(tempDir, jobId, filename);
      if saveError.Some? {
        return Failure(SaveFailed(saveError.value));
      }
      tempFiles := tempFiles + {path};
      jobs := jobs[jobId := NewJob(createdAt)];
      r := Success(Started(jobId, "processing", StartedMessage));
    }

    /** `get_status`: the stored entry itself, or 404. */
    function GetStatus(jobId: string): (r: Result<Job, HttpError>)
      reads this
      ensures r.Failure? <==> jobId !in jobs
      ensures r.Failure? ==> r.error == UnknownJob
      ensures r.Success? ==> r.value == jobs[jobId]
    {
      if jobId !in jobs then Failure(UnknownJob) else Success(jobs[jobId])
    }

    /** `download_file` over the current table; `exists` says which files exist. */
    function DownloadFile(jobId: string, fileType: string, fileExists: string -> bool): (r: Result<string, HttpError>)
      reads this
      ensures r == Download(jobs, jobId, fileType, fileExists)
    {
      if jobId !in jobs then Failure(UnknownJob)
      else
        var status := jobs[jobId];
        if status.status != Completed then Failure(NotCompleted)
        else if status.result.None? then Failure(NoResult)
        else
          var result := status.result.value;
          if fileType == "markdown" then (if fileExists(result.markdownPath) then Success(result.markdownPath) else Failure(FileMissing))
          else if fileType == "text" then (if fileExists(result.textPath) then Success(result.textPath) else Failure(FileMissing))
          else if fileType == "screenshot" then (if fileExists(result.screenshotPath) then Success(result.screenshotPath) else Failure(FileMissing))
          else Failure(BadFileType)
    }

    /** Update the entry of `jobId` to `job`. */
    method Put(jobId: string, job: Job)
      modifies this
      ensures jobs == old(jobs)[jobId := job] && tempFiles == old(tempFiles)
    {
      jobs := jobs[jobId := job];
    }

    /** The steps both workers share, field by field; `trace` lists the progress values set. */
    method RunWorker(jobId: string, loading: string, outcome: WorkerOutcome, source: Source)
      returns (trace: seq<int>)
      requires jobId in jobs
      modifies this
      ensures jobs == old(jobs)[jobId := WorkerJob(old(jobs)[jobId], loading, outcome, source)]
      ensures tempFiles == old(tempFiles)
      ensures trace == WorkerTrace(outcome)
    {
      var job := jobs[jobId];
      job := job.(message := loading);
      job := job.(progress := 10);
      Put(jobId, job);
      trace := [10];
      if outcome.transcription.Failure? {
        Put(jobId, Failed(job, outcome.transcription.error));
        return;
      }
      var tr := outcome.transcription.value;
      job := job.(message := CapturedMessage);
      job := job.(progress := 50);
      Put(jobId, job);
      trace := trace + [50];
      if outcome.saved.Failure? {
        Put(jobId, Failed(job, outcome.saved.error));
        return;
      }
      job := job.(message := SavingMessage);
      job := job.(progress := 80);
      Put(jobId, job);
      trace := trace + [80];
      var segmentsData := [];
      var i := 0;
      while i < |tr.transcript.segments|
        invariant 0 <= i <= |tr.transcript.segments|
        invariant segmentsData == MapSeq(SegmentDataOf, tr.transcript.segments[..i])
      {
        assert tr.transcript.segments[..i + 1][..i] == tr.transcript.segments[..i];
        segmentsData := segmentsData + [SegmentDataOf(tr.transcript.segments[i])];
        i := i + 1;
      }
      assert tr.transcript.segments[..i] == tr.transcript.segments;
      job := job.(status := Completed);
      job := job.(message := DoneMessage);
      job := job.(progress := 100);
      job := job.(result := Some(JobResult(TranscriptOf(tr.transcript), segmentsData,
                                           outcome.saved.value.markdownPath, outcome.saved.value.textPath,
                                           tr.transcript.screenshot, tr.runDir,
                                           |tr.transcript.segments|, source)));
      Put(jobId, job);
      trace := trace + [100];
    }

    /** `process_url_transcription`. */
    method ProcessUrlTranscription(jobId: string, url: string, outcome: WorkerOutcome)
      returns (trace: seq<int>)
      requires jobId in jobs
      modifies this
      ensures jobs == old(jobs)[jobId := WorkerJob(old(jobs)[jobId], UrlLoadingMessage, outcome, SourceUrl(url))]
      ensures tempFiles == old(tempFiles)
      ensures trace == WorkerTrace(outcome)
    {
      trace := RunWorker(jobId, UrlLoadingMessage, outcome, SourceUrl(url));
    }

    /** `process_local_transcription`: the same steps, then the uploaded file is deleted
        whether the job completed or failed; `deletion` and `retry` are what the deletions
        do (see `LocalFilesLeft`). */
    method ProcessLocalTranscription(jobId: string, htmlPath: string, outcome: WorkerOutcome,
                                     deletion: Unlink, retry: Unlink)
      returns (trace: seq<int>)
      requires jobId in jobs
      modifies this
      ensures jobs == old(jobs)[jobId := LocalJob(old(jobs)[jobId], outcome, htmlPath, htmlPath in old(tempFiles), deletion)]
      ensures tempFiles == LocalFilesLeft(old(tempFiles), htmlPath,
                 WorkerJob(old(jobs)[jobId], HtmlLoadingMessage, outcome, SourcePath(htmlPath)).status == Completed,
                 deletion, retry)
      ensures trace == WorkerTrace(outcome)
    {
      trace := RunWorker(jobId, HtmlLoadingMessage, outcome, SourcePath(htmlPath));
      if htmlPath in tempFiles {
        var completed := jobs[jobId].status == Completed;
        match deletion
        case Unlinked =>
          tempFiles := tempFiles - {htmlPath};
        case UnlinkRaised(e) =>
          if completed {
            Put(jobId, Failed(jobs[jobId], e));
            if retry.Unlinked? {
              tempFiles := tempFiles - {htmlPath};
            }
          }
      }
    }
  }

  // ---------------------------------------------------------------------------------------
  // Properties

  /** A worker always ends its job: completed exactly when the transcription and the saving
      both succeeded, with progress 100 and a result whose band count is the number of bands
      and whose transcript is the combined text, else the visible text; otherwise failed with
      the first exception's message, the progress reached and no result. */
  lemma WorkerEndsJob(createdAt: string, loading: string, outcome: WorkerOutcome, source: Source)
    ensures var job := WorkerJob(NewJob(createdAt), loading, outcome, source);
      var trace := WorkerTrace(outcome);
      && WellFormed(job) && job.status != Processing && job.createdAt == createdAt
      && job.progress == trace[|trace| - 1]
      && (job.status == Completed <==> outcome.transcription.Success? && outcome.saved.Success?)
      && (job.status == Completed ==>
            var t := outcome.transcription.value.transcript;
            && job.progress == 100 && job.message == DoneMessage
            && job.result.value.segmentsCount == |job.result.value.segments| == |t.segments|
            && job.result.value.transcript == (if t.combinedText != "" then t.combinedText else t.visibleText)
            && job.result.value.markdownPath == outcome.saved.value.markdownPath
            && job.result.value.textPath == outcome.saved.value.textPath
            && job.result.value.source == source)
      && (job.status == Error ==>
            && job.result.None? && job.message == ErrorMessage
            && job.error == Some(if outcome.transcription.Failure? then outcome.transcription.error
                                 else outcome.saved.error))
  {
  }

  /** Progress only moves forward, through 10, 50, 80 and 100 in that order; a failing
      worker stops at 10 or 50, a completing one reaches 100. */
  lemma WorkerTraceOrdered(outcome: WorkerOutcome)
    ensures var trace := WorkerTrace(outcome);
      && 1 <= |trace| && trace == [10, 50, 80, 100][..|trace|]
      && (forall i, j :: 0 <= i < j < |trace| ==> trace[i] < trace[j])
      && (|trace| == 4 <==> outcome.transcription.Success? && outcome.saved.Success?)
      && |trace| != 3
  {
  }

  /** A worker's record of the bands lists them in order, each with its number, rows and
      cleaned text. */
  lemma WorkerSegments(tr: Transcribed, saved: Saved, source: Source)
    ensures var r := ResultOf(tr, saved, source);
      var segs := tr.transcript.segments;
      |r.segments| == |segs| == r.segmentsCount
      && forall k :: 0 <= k < |segs| ==>
        r.segments[k] == SegmentData(segs[k].index, segs[k].cleanText, segs[k].top, segs[k].bottom)
  {
    MapSeqAt(SegmentDataOf, tr.transcript.segments);
  }

  /** The table stays well formed: creating a job and running a worker on a job that is
      still processing keep every entry well formed. */
  lemma WellFormedKept(jobs: map<string, Job>, jobId: string, createdAt: string, loading: string,
                       outcome: WorkerOutcome, source: Source)
    requires TableWellFormed(jobs)
    ensures TableWellFormed(jobs[jobId := NewJob(createdAt)])
    ensures jobId in jobs && jobs[jobId].status == Processing && jobs[jobId].result.None? ==>
              TableWellFormed(jobs[jobId := WorkerJob(jobs[jobId], loading, outcome, source)])
  {
    if jobId in jobs && jobs[jobId].status == Processing {
      var job := jobs[jobId];
      assert job.error.None?;
    }
  }

  /** A download succeeds exactly when the job is completed with a result, the file type is
      one of the three and the file exists; the errors come in the order of the checks. */
  lemma DownloadSucceedsIff(jobs: map<string, Job>, jobId: string, fileType: string, fileExists: string -> bool)
    ensures var r := Download(jobs, jobId, fileType, fileExists);
      && (r.Success? <==>
            jobId in jobs && jobs[jobId].status == Completed && jobs[jobId].result.Some?
            && fileType in {"markdown", "text", "screenshot"}
            && fileExists(FileFor(jobs[jobId].result.value, fileType).value))
      && (jobId !in jobs ==> r == Failure(UnknownJob))
      && (jobId in jobs && jobs[jobId].status != Completed ==> r == Failure(NotCompleted))
      && (r.Success? ==> var res := jobs[jobId].result.value;
            && r.value == FileFor(res, fileType).value
            && (fileType == "markdown" ==> r.value == res.markdownPath)
            && (fileType == "text" ==> r.value == res.textPath)
            && (fileType == "screenshot" ==> r.value == res.screenshotPath))
      && (r.Failure? && r.error.code == 404 ==> r.error == UnknownJob || r.error == FileMissing)
  {
  }

  /** While a job is processing or after it failed, nothing can be downloaded; after it
      completed, each of its three files is served once it exists. */
  lemma DownloadFollowsWorker(jobs: map<string, Job>, jobId: string, createdAt: string, loading: string,
                              outcome: WorkerOutcome, source: Source, fileExists: string -> bool)
    ensures Download(jobs[jobId := NewJob(createdAt)], jobId, "markdown", fileExists) == Failure(NotCompleted)
    ensures var done := jobs[jobId := WorkerJob(NewJob(createdAt), loading, outcome, source)];
      && (outcome.transcription.Failure? || outcome.saved.Failure? ==>
            forall t :: Download(done, jobId, t, fileExists) == Failure(NotCompleted))
      && (outcome.transcription.Success? && outcome.saved.Success? ==>
            var saved := outcome.saved.value;
            && (fileExists(saved.markdownPath) ==> Download(done, jobId, "markdown", fileExists) == Success(saved.markdownPath))
            && (fileExists(saved.textPath) ==> Download(done, jobId, "text", fileExists) == Success(saved.textPath))
            && (var shot := outcome.transcription.value.transcript.screenshot;
                fileExists(shot) ==> Download(done, jobId, "screenshot", fileExists) == Success(shot))
            && Download(done, jobId, "pdf", fileExists) == Failure(BadFileType))
  {
  }

  /** When the temporary file is deleted, the local worker leaves the entry any worker
      leaves, and the file is gone. */
  lemma LocalDeletionSucceeds(job: Job, outcome: WorkerOutcome, htmlPath: string, tempFiles: set<string>, retry: Unlink)
    ensures LocalJob(job, outcome, htmlPath, htmlPath in tempFiles, Unlinked)
         == WorkerJob(job, HtmlLoadingMessage, outcome, SourcePath(htmlPath))
    ensures forall completed :: LocalFilesLeft(tempFiles, htmlPath, completed, Unlinked, retry) == tempFiles - {htmlPath}
  {
  }

  /** A deletion that raises after a local job completed leaves an error entry that still
      holds the result: an entry outside `WellFormed`. */
  lemma LocalDeletionFails(job: Job, tr: Transcribed, saved: Saved, htmlPath: string, e: string)
    ensures var j := LocalJob(job, WorkerOutcome(Success(tr), Success(saved)), htmlPath, true, UnlinkRaised(e));
      && j.status == Error && j.error == Some(e) && j.message == ErrorMessage && j.progress == 100
      && j.result == Some(ResultOf(tr, saved, SourcePath(htmlPath)))
      && !WellFormed(j)
  {
  }

  /** An upload whose name is not HTML is refused whatever else happens: no entry is made. */
  lemma UploadNeedsHtmlName(jobId: string, filename: string, saveError: Option<string>)
    ensures EndsWith(filename, ".htm") ==> !UploadReply(jobId, filename, saveError).Failure? || saveError.Some?
    ensures UploadReply(jobId, "page.HTML", saveError) == Failure(NotHtml)
    ensures UploadReply(jobId, "page.html", None).Success?
  {
    assert !EndsWith("page.HTML", ".html");
    assert !EndsWith("page.HTML", ".htm");
    assert EndsWith("page.html", ".html");
  }
}
