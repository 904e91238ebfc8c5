/** `TesseractOCREngine`: the engine's state and settings, initialisation,
    one recognition call (`performOCR`, and its twin used by the batch), and
    the aggregation of `performBatchOCR`. The tesseract process, the file
    system and the clock are oracles; progress is returned as a trace rather
    than emitted. */
module OcrEngine {
  import opened Text
  import opened Wrappers
  import opened Process
  import opened Sorting
  import opened Arithmetic
  import opened Resize
  import Confidence

  /** `OCREngine::EngineType`; only `Tesseract` is implemented. */
  datatype EngineType = Tesseract | PaddleOcr | EasyOcr | Custom

  /** `OCREngine::OCRResult`. */
  datatype OcrResult = OcrResult(text: string, confidence: real, success: bool, errorMessage: string)

  /** A default-constructed `OCRResult`: no text, confidence 0, not successful. */
  const DefaultOcrResult: OcrResult := OcrResult("", 0.0, false, "")

  /** A failed recognition carrying `message`. */
  function Failure(message: string): OcrResult
  {
    DefaultOcrResult.(errorMessage := message)
  }

  /** `OCREngine::BatchOCRResult`. */
  datatype BatchResult = BatchResult(texts: seq<string>, pageNames: seq<string>, confidences: seq<real>,
                                     combinedText: string, success: bool, errorMessage: string,
                                     processedPages: nat, totalPages: nat)

  /** A default-constructed `BatchOCRResult`: empty, not successful, 0 of 0 pages. */
  const DefaultBatchResult: BatchResult := BatchResult([], [], [], "", false, "", 0, 0)

  /** The recognition language used when the caller names none. */
  const DefaultLanguage: string := "chi_sim+eng"

  // ----- Engine state -------------------------------------------------------

  /** The command-line settings: `--oem`, `--psm` and the tessdata directory
      ("" for the tool's own default). */
  datatype Settings = Settings(ocrEngineMode: nat, pageSegmentationMode: nat, tessDataPath: string)

  /** The engine's mutable state: whether it is initialised, the last error,
      the settings, and the temp files it still records. */
  datatype Engine = Engine(initialized: bool, lastError: string, settings: Settings, tempFiles: seq<string>)

  /** A freshly constructed engine, before any bundled tool is found. */
  const NewEngine: Engine := Engine(false, "", Settings(3, 3, ""), [])

  /** Both modes are documented as 0..13. */
  const MaxMode: nat := 13

  /** `qBound(0, mode, 13)`. */
  function Bound(mode: int): (m: nat)
    ensures m <= MaxMode
    ensures 0 <= mode <= MaxMode ==> m == mode
    ensures mode < 0 ==> m == 0
    ensures mode > MaxMode ==> m == MaxMode
  {
    if mode < 0 then 0 else if mode > MaxMode then MaxMode else mode
  }

  /** Bounding never reorders two requests. */
  lemma BoundMonotone(a: int, b: int)
    requires a <= b
    ensures Bound(a) <= Bound(b)
  {
  }

  /** `setOCREngineMode`: store the bounded mode; nothing else changes. */
  function SetOcrEngineMode(e: Engine, mode: int): (r: Engine)
    ensures r.settings.ocrEngineMode <= MaxMode
    ensures 0 <= mode <= MaxMode ==> r.settings.ocrEngineMode == mode
    ensures r == e.(settings := e.settings.(ocrEngineMode := r.settings.ocrEngineMode))
  {
    e.(settings := e.settings.(ocrEngineMode := Bound(mode)))
  }

  /** `setPageSegmentationMode`: store the bounded mode; nothing else changes. */
  function SetPageSegmentationMode(e: Engine, mode: int): (r: Engine)
    ensures r.settings.pageSegmentationMode <= MaxMode
    ensures 0 <= mode <= MaxMode ==> r.settings.pageSegmentationMode == mode
    ensures r == e.(settings := e.settings.(pageSegmentationMode := r.settings.pageSegmentationMode))
  {
    e.(settings := e.settings.(pageSegmentationMode := Bound(mode)))
  }

  /** Setting a mode twice is setting it once, and re-storing the stored
      value changes nothing. */
  lemma SetModesIdempotent(e: Engine, mode: int)
    ensures SetOcrEngineMode(SetOcrEngineMode(e, mode), mode) == SetOcrEngineMode(e, mode)
    ensures SetPageSegmentationMode(SetPageSegmentationMode(e, mode), mode) == SetPageSegmentationMode(e, mode)
    ensures e.settings.ocrEngineMode <= MaxMode ==> SetOcrEngineMode(e, e.settings.ocrEngineMode) == e
    ensures e.settings.pageSegmentationMode <= MaxMode ==> SetPageSegmentationMode(e, e.settings.pageSegmentationMode) == e
  {
  }

  // ----- Initialisation -----------------------------------------------------

  /** What running `tesseract --version` reveals: whether it finished within
      the wait with exit code 0, and its standard output when it finished. */
  datatype Toolchain = Toolchain(installed: bool, versionOutput: Option<string>)

  /** `getTesseractVersion`: the trimmed first line of the output, or "". */
  function Version(tool: Toolchain): string
  {
    match tool.versionOutput
    case None => ""
    case Some(out) => Trim(Split(out, '\n')[0])
  }

  const NotInstalled: string := "Tesseract OCR 未安装或无法找到可执行文件"
  const NoVersion: string := "无法获取Tesseract版本信息"

  /** The engine after `initialize`, its return value and the
      `errorOccurred` signal it emitted, if any. */
  datatype Init = Init(engine: Engine, ok: bool, errorSignal: Option<string>)

  /** `initialize`: succeeds at once when already initialised; otherwise
      needs an installed tool that reports a version. */
  function Initialize(e: Engine, tool: Toolchain): (r: Init)
    ensures r.ok <==> e.initialized || (tool.installed && Version(tool) != "")
    ensures r.ok ==> r.engine == e.(initialized := true) && r.errorSignal.None?
    ensures !r.ok ==> && r.engine == e.(lastError := r.engine.lastError)
                      && r.errorSignal == Some(r.engine.lastError)
                      && (r.engine.lastError == NotInstalled <==> !tool.installed)
                      && (r.engine.lastError == NoVersion <==> tool.installed)
  {
    if e.initialized then Init(e, true, None)
    else if !tool.installed then Init(e.(lastError := NotInstalled), false, Some(NotInstalled))
    else if Version(tool) == "" then Init(e.(lastError := NoVersion), false, Some(NoVersion))
    else Init(e.(initialized := true), true, None)
  }

  /** A second `initialize` with the same tool reaches the same verdict and
      leaves the engine as the first left it. */
  lemma InitializeIdempotent(e: Engine, tool: Toolchain)
    ensures var first := Initialize(e, tool);
            var second := Initialize(first.engine, tool);
            second.ok == first.ok && second.engine == first.engine
  {
  }

  // ----- One recognition ----------------------------------------------------

  /** What one recognition observes of the outside world:
      - `tempLocation`: the writable temp directory;
      - `saveClock`, `resultClock`: the millisecond clock when the image path
        and the output base name are chosen;
      - `saved`: whether the image was written as PNG;
      - `run`: the tesseract run for a given argument list;
      - `read`: a file's text, `None` when it cannot be opened. */
  datatype PageIo = PageIo(tempLocation: string, saveClock: nat, saved: bool, resultClock: nat,
                           run: seq<string> -> Run, read: string -> Option<string>)

  /** `saveImageToTempFile`'s path. */
  function ImagePath(io: PageIo): string
  {
    io.tempLocation + "/ocr_temp_" + NatToString(io.saveClock) + ".png"
  }

  /** The base name tesseract writes `.txt` and `.tsv` next to. */
  function OutputBase(io: PageIo): string
  {
    io.tempLocation + "/ocr_result_" + NatToString(io.resultClock)
  }

  function TextPath(io: PageIo): string
  {
    OutputBase(io) + ".txt"
  }

  function TsvPath(io: PageIo): string
  {
    OutputBase(io) + ".tsv"
  }

  /** The command line: input image, output base, language, both modes as
      decimal numbers, both output formats, and the tessdata directory only
      when one is set. */
  function Arguments(s: Settings, language: string, image: string, base: string): (args: seq<string>)
    ensures |args| == if s.tessDataPath == "" then 10 else 12
    ensures args[0] == image && args[1] == base && args[2] == "-l" && args[3] == language
    ensures args[4] == "--oem" && AllDigits(args[5]) && DigitsValue(args[5]) == s.ocrEngineMode
    ensures args[6] == "--psm" && AllDigits(args[7]) && DigitsValue(args[7]) == s.pageSegmentationMode
    ensures args[8] == "txt" && args[9] == "tsv"
    ensures s.tessDataPath != "" ==> args[10] == "--tessdata-dir" && args[11] == s.tessDataPath
  {
    NatToStringRoundTrip(s.ocrEngineMode);
    NatToStringRoundTrip(s.pageSegmentationMode);
    [image, base, "-l", language,
     "--oem", NatToString(s.ocrEngineMode), "--psm", NatToString(s.pageSegmentationMode),
     "txt", "tsv"]
    + (if s.tessDataPath == "" then [] else ["--tessdata-dir", s.tessDataPath])
  }

  /** The wait: polled every 500 ms for at most 30 s. */
  const TesseractPollLimit: nat := 60

  /** The percentage reported after the `k`-th poll: 20 rising to 75. */
  function PollProgress(k: nat): int
  {
    20 + (55 * (500 * k)) / 30000
  }

  function PollTrace(rounds: nat): (r: seq<int>)
    requires rounds <= TesseractPollLimit
    ensures |r| == rounds
    ensures forall k :: 0 <= k < rounds ==> r[k] == PollProgress(k + 1) && 20 <= r[k] <= 75
    ensures NonDecreasing(r)
  {
    if rounds == 0 then [] else PollTrace(rounds - 1) + [PollProgress(rounds)]
  }

  /** Progress from launching tesseract to the end of the wait. */
  function RunTrace(run: Run): (r: seq<int>)
    requires !run.FailedToStart?
    ensures |r| == 2 + Rounds(run, TesseractPollLimit) && r[..2] == [10, 20]
    ensures forall k :: 0 <= k < |r| ==> 10 <= r[k] <= 75
    ensures NonDecreasing(r)
  {
    AppendNonDecreasing([10, 20], PollTrace(Rounds(run, TesseractPollLimit)));
    [10, 20] + PollTrace(Rounds(run, TesseractPollLimit))
  }

  const EmptyImage: string := "输入图像为空"
  const SaveFailed: string := "无法保存临时图像文件"
  const StartFailedPrefix: string := "无法启动Tesseract进程: "
  const TimedOutMessage: string := "Tesseract处理超时"
  const ExitFailedPrefix: string := "Tesseract执行失败: "
  const ReadFailed: string := "无法读取OCR结果文件"

  /** How far a recognition of a non-null image got:
      - `NotSaved`: the image could not be written; nothing was started;
      - `Failed`: tesseract was launched and something went wrong;
      - `Recognised`: the text and the confidence.
      The last two carry the progress percentages reported on the way. */
  datatype Attempt =
    | NotSaved
    | Failed(message: string, progress: seq<int>)
    | Recognised(text: string, confidence: real, progress: seq<int>)

  /** The text tesseract wrote, when there is some. */
  predicate HasText(io: PageIo)
  {
    io.read(TextPath(io)).Some? && io.read(TextPath(io)).value != ""
  }

  /** Recognition of a non-null image by an initialised engine: save it, run
      tesseract, and read back the text and the TSV confidences. */
  function Recognise(s: Settings, language: string, io: PageIo, parse: string -> Option<real>): (a: Attempt)
    ensures a.NotSaved? <==> !io.saved
    ensures a.Recognised? <==>
              && io.saved
              && var run := io.run(Arguments(s, language, ImagePath(io), OutputBase(io)));
                 run.Finished? && run.exit.Clean() && HasText(io)
    ensures a.Recognised? ==> && a.text == Trim(io.read(TextPath(io)).value)
                              && a.confidence == Confidence.Expected(io.read(TsvPath(io)), parse)
                              && a.confidence >= 0.0
    ensures !a.NotSaved? ==> && |a.progress| > 0 && a.progress[0] == 10
                             && NonDecreasing(a.progress)
                             && (forall k :: 0 <= k < |a.progress| ==> 10 <= a.progress[k] <= 100)
                             && (a.progress[|a.progress| - 1] == 100 <==> a.Recognised?)
    ensures a.Failed? ==> a.message != ""
  {
    if !io.saved then NotSaved
    else
      var run := io.run(Arguments(s, language, ImagePath(io), OutputBase(io)));
      if run.FailedToStart? then Failed(StartFailedPrefix + run.error, [10])
      else if run.TimedOut? then Failed(TimedOutMessage, RunTrace(run))
      else Collect(run, io, parse)
  }

  /** After tesseract exited by itself: check the exit, read the text back
      and the TSV confidence. */
  function Collect(run: Run, io: PageIo, parse: string -> Option<real>): (a: Attempt)
    requires run.Finished?
    ensures !a.NotSaved?
    ensures a.Recognised? <==> run.exit.Clean() && HasText(io)
    ensures a.Recognised? ==> && a.text == Trim(io.read(TextPath(io)).value)
                              && a.confidence == Confidence.Expected(io.read(TsvPath(io)), parse)
                              && a.confidence >= 0.0
    ensures |a.progress| > 0 && a.progress[0] == 10 && NonDecreasing(a.progress)
    ensures forall k :: 0 <= k < |a.progress| ==> 10 <= a.progress[k] <= 100
    ensures a.progress[|a.progress| - 1] == 100 <==> a.Recognised?
    ensures a.Failed? ==> a.message != ""
  {
    var watched := RunTrace(run) + [80];
    AppendNonDecreasing(RunTrace(run), [80]);
    if !run.exit.Clean() then Failed(ExitFailedPrefix + run.exit.stderr, watched)
    else if !HasText(io) then Failed(ReadFailed, watched)
    else
      var content := io.read(TsvPath(io));
      ConfidenceNonNegative(content, parse);
      AppendNonDecreasing(watched, [100]);
      Recognised(Trim(io.read(TextPath(io)).value), Confidence.Expected(content, parse), watched + [100])
  }

  lemma ConfidenceNonNegative(content: Option<string>, parse: string -> Option<real>)
    ensures Confidence.Expected(content, parse) >= 0.0
  {
    if content.Some? {
      var lines := Confidence.Lines(content.value);
      if |lines| > 1 {
        var confs := Confidence.Confidences(Confidence.Table(lines[1..]), parse);
        Confidence.SumNonNegative(confs);
      }
    }
  }

  // ----- Process errors -----------------------------------------------------

  /** `onTesseractError`, connected to the tesseract process's
      `errorOccurred`: the message it stores in `m_lastError` and re-emits,
      per kind. */
  function ProcessErrorText(err: ProcessError): string
  {
    match err
    case NotStarted => "无法启动Tesseract进程"
    case Crashed => "Tesseract进程崩溃"
    case Timedout => "Tesseract进程超时"
    case WriteError => "Tesseract进程写入错误"
    case ReadError => "Tesseract进程读取错误"
    case UnknownError => "Tesseract进程未知错误"
  }

  /** Each kind is worded differently, so the message names the kind. */
  lemma ProcessErrorTextInjective(a: ProcessError, b: ProcessError)
    ensures ProcessErrorText(a) == ProcessErrorText(b) <==> a == b
  {
    if a != b {
      var x, y := ProcessErrorText(a), ProcessErrorText(b);
      if a.NotStarted? || b.NotStarted? {
        assert x[0] != y[0];
      } else {
        assert x[11] != y[11] || x[12] != y[12];
      }
    }
  }

  /** The message the slot sent while tesseract ran for one attempt, if
      any; nothing when the image was never saved, since nothing ran. */
  function RunFault(s: Settings, language: string, io: PageIo): (f: Option<string>)
    ensures var run := io.run(Arguments(s, language, ImagePath(io), OutputBase(io)));
            && (f == Some(ProcessErrorText(NotStarted)) <==> io.saved && run.FailedToStart?)
            && (f == Some(ProcessErrorText(Crashed)) <==>
                  io.saved && ((run.TimedOut? && !run.stopped.normal) || (run.Finished? && !run.exit.normal)))
            && (f.None? || f == Some(ProcessErrorText(NotStarted)) || f == Some(ProcessErrorText(Crashed)))
  {
    ProcessErrorTextInjective(NotStarted, Crashed);
    if !io.saved then None
    else
      match Notified(io.run(Arguments(s, language, ImagePath(io), OutputBase(io))))
      case None => None
      case Some(err) => Some(ProcessErrorText(err))
  }

  /** `m_lastError` after a call that may have sent `signal` through the slot. */
  function Reported(lastError: string, signal: Option<string>): string
  {
    if signal.Some? then signal.value else lastError
  }

  /** The `OCRResult` an attempt ends with. */
  function ResultOf(a: Attempt): OcrResult
  {
    match a
    case NotSaved => Failure(SaveFailed)
    case Failed(message, _) => Failure(message)
    case Recognised(text, confidence, _) => OcrResult(text, confidence, true, "")
  }

  /** The percentages an attempt reported. */
  function ProgressOf(a: Attempt): seq<int>
  {
    match a
    case NotSaved => []
    case Failed(_, progress) => progress
    case Recognised(_, _, progress) => progress
  }

  /** Everything `performOCR` produces: the result, the engine afterwards,
      the files it removed (in order), the `progressUpdated` values, the
      `errorOccurred` signal of a failed initialisation or of the process
      slot (at most one of the two happens), and whether `ocrCompleted` was
      emitted. */
  datatype PageOutcome = PageOutcome(result: OcrResult, engine: Engine, removed: seq<string>,
                                     progress: seq<int>, errorSignal: Option<string>, completed: bool)

  /** `performOCR`. Every failure after the image was saved runs
      `cleanupTempFiles`, which removes every recorded temp file, the image
      included, and forgets them; success removes the image and both outputs
      directly but leaves the image recorded. */
  function RecognizePage(e: Engine, tool: Toolchain, image: Image, language: string,
                         io: PageIo, parse: string -> Option<real>): (o: PageOutcome)
    ensures o.result.success <==> o.completed
    ensures o.result.success <==>
              && Initialize(e, tool).ok && !image.NullImage?
              && Recognise(e.settings, language, io, parse).Recognised?
    ensures o.result.success ==> o.result.errorMessage == ""
    ensures !o.result.success ==> && o.result.errorMessage != "" && o.result.text == ""
                                  && o.result.confidence == 0.0
    ensures o.engine.settings == e.settings && o.engine.initialized == Initialize(e, tool).ok
    ensures !Initialize(e, tool).ok ==> o.errorSignal == Initialize(e, tool).errorSignal
    ensures Initialize(e, tool).ok && image.NullImage? ==> o.errorSignal.None?
    ensures Initialize(e, tool).ok && !image.NullImage? ==> o.errorSignal == RunFault(e.settings, language, io)
    ensures o.errorSignal.Some? ==> !o.result.success
    ensures o.engine.lastError == Reported(e.lastError, o.errorSignal)
    ensures Initialize(e, tool).ok && image.NullImage? ==>
              && o.result == Failure(EmptyImage)
              && o.engine.tempFiles == e.tempFiles && o.removed == [] && o.progress == []
    ensures |o.progress| > 0 <==> Initialize(e, tool).ok && !image.NullImage? && io.saved
    ensures |o.progress| == 0 ==> o.engine.tempFiles == e.tempFiles && o.removed == []
    ensures |o.progress| > 0 && !o.result.success ==>
              o.engine.tempFiles == [] && o.removed == e.tempFiles + [ImagePath(io)]
    ensures o.result.success ==>
              && o.engine.tempFiles == e.tempFiles + [ImagePath(io)]
              && o.removed == [ImagePath(io), TextPath(io), TsvPath(io)]
    ensures NonDecreasing(o.progress)
    ensures forall k :: 0 <= k < |o.progress| ==> 10 <= o.progress[k] <= 100
    ensures o.result.success <==> |o.progress| > 0 && o.progress[|o.progress| - 1] == 100
  {
    var init := Initialize(e, tool);
    if !init.ok then
      PageOutcome(Failure(init.engine.lastError), init.engine, [], [], init.errorSignal, false)
    else
      if image.NullImage? then PageOutcome(Failure(EmptyImage), init.engine, [], [], None, false)
      else
        var fault := RunFault(init.engine.settings, language, io);
        var ready := init.engine.(lastError := Reported(init.engine.lastError, fault));
        var a := Recognise(ready.settings, language, io, parse);
        match a
        case NotSaved => PageOutcome(ResultOf(a), ready, [], [], fault, false)
        case Failed(_, progress) =>
          PageOutcome(ResultOf(a), ready.(tempFiles := []), ready.tempFiles + [ImagePath(io)],
                      progress, fault, false)
        case Recognised(_, _, progress) =>
          PageOutcome(ResultOf(a), ready.(tempFiles := ready.tempFiles + [ImagePath(io)]),
                      [ImagePath(io), TextPath(io), TsvPath(io)], progress, fault, true)
  }

  /** A successful recognition returns the trimmed text tesseract wrote and
      the TSV confidence; when every confidence the TSV file contributes is
      at most 100, that confidence lies in [0, 1], the documented range. */
  lemma RecognizedTextAndConfidence(e: Engine, tool: Toolchain, image: Image, language: string,
                                    io: PageIo, parse: string -> Option<real>)
    requires Confidence.PercentagesOnly(io.read(TsvPath(io)), parse)
    ensures var r := RecognizePage(e, tool, image, language, io, parse).result;
            r.success ==> && r.text == Trim(io.read(TextPath(io)).value)
                          && 0.0 <= r.confidence <= 1.0
  {
    Confidence.ConfidenceInUnitRange(io.read(TsvPath(io)), parse);
  }

  /** The result does not depend on which temp files the engine records, and
      with an initialised engine it is the attempt's; the last error changes
      only when the process slot fired: what the batch relies on when it
      recognises page after page. */
  lemma ReadyEngineRecognises(e: Engine, tool: Toolchain, image: Image, language: string,
                              io: PageIo, parse: string -> Option<real>)
    requires e.initialized && !image.NullImage?
    ensures var o := RecognizePage(e, tool, image, language, io, parse);
            var a := Recognise(e.settings, language, io, parse);
            var fault := RunFault(e.settings, language, io);
            && o.result == ResultOf(a) && o.progress == ProgressOf(a)
            && o.errorSignal == fault && o.engine.lastError == Reported(e.lastError, fault)
  {
  }
}
