/** `FileProcessor::processFile` and the two paths it dispatches to: a
    single image file, or a PDF rasterized page by page into a temporary
    directory. Everything the operations observe of the outside world (the
    file system, the image decoder, the rasterizer process, the clock) is
    supplied as an `Environment`. */
module FileProcessor {
  import opened Text
  import opened Paths
  import opened Wrappers
  import opened Process
  import opened Sorting
  import opened FileTypes
  import opened Resize
  import opened PdfPages
  import opened Arithmetic

  /** `ProcessResult`: images, success flag, error message, page count and
      one display name per image. */
  datatype ProcessResult = ProcessResult(images: seq<Image>, success: bool, errorMessage: string,
                                         pageCount: int, pageNames: seq<string>)
  {
    /** The shape every result of `processFile` has: a name and a count for
        each image, success exactly when there is an image, and an error
        message exactly on failure. */
    predicate WellFormed()
    {
      && pageCount == |images| == |pageNames|
      && (success <==> |images| > 0)
      && (success <==> errorMessage == "")
    }
  }

  /** The default-constructed result: no images, not successful, count 0. */
  const DefaultResult: ProcessResult := ProcessResult([], false, "", 0, [])

  /** A default result carrying an error message. */
  function Failure(message: string): ProcessResult
  {
    DefaultResult.(errorMessage := message)
  }

  lemma FailureIsWellFormed(message: string)
    requires message != ""
    ensures Failure(message).WellFormed() && !Failure(message).success
  {
  }

  /** One `progressUpdated(progress, currentPage, totalPages)` signal. */
  datatype Progress = Progress(percent: int, currentPage: int, totalPages: int)

  /** Every percentage lies in 0..100, the range `progressUpdated` documents. */
  predicate InRange(events: seq<Progress>)
  {
    forall k :: 0 <= k < |events| ==> 0 <= events[k].percent <= 100
  }

  /** The percentages of a signal trace. */
  function Percents(events: seq<Progress>): (r: seq<int>)
    ensures |r| == |events|
    ensures forall k :: 0 <= k < |events| ==> r[k] == events[k].percent
  {
    if |events| == 0 then [] else [events[0].percent] + Percents(events[1..])
  }

  lemma PercentsAppend(a: seq<Progress>, b: seq<Progress>)
    ensures Percents(a + b) == Percents(a) + Percents(b)
  {
    var l, r := Percents(a + b), Percents(a) + Percents(b);
    forall k | 0 <= k < |l| ensures l[k] == r[k] {
      if k < |a| {
        assert (a + b)[k] == a[k];
      } else {
        assert (a + b)[k] == b[k - |a|];
      }
    }
  }

  /** Signals that carry no page information (page 0 of 0). */
  function Untracked(values: seq<int>): (r: seq<Progress>)
    ensures |r| == |values|
    ensures forall k :: 0 <= k < |values| ==> r[k] == Progress(values[k], 0, 0)
    ensures Percents(r) == values
  {
    if |values| == 0 then [] else [Progress(values[0], 0, 0)] + Untracked(values[1..])
  }

  /** What `QImageReader` reports for a path: it cannot read it (with its
      error string), or it decodes an image, which may be null. */
  datatype ImageRead = Unreadable(reason: string) | Readable(image: Image)

  /** The world as the processor sees it. `present` is `QFile::exists`;
      `read` is `QImageReader`; `popplerAvailable` is the outcome of running
      the rasterizer with `-h`; `tempLocation` and `clock` give the output
      directory; `poppler` is the rasterizer run; `entries` are the regular
      files it leaves in the output directory; `stat` is `QFileInfo`; `load`
      is `QImage(path)`; `scale` is Qt's smooth rescaling. */
  datatype Environment = Environment(
    present: string -> bool,
    read: string -> ImageRead,
    popplerAvailable: bool,
    tempLocation: string,
    clock: nat,
    poppler: Run,
    entries: seq<string>,
    stat: string -> FileStat,
    load: string -> Image,
    scale: (Image, Size) -> Image)

  /** The per-call output directory, named after the current time in ms. */
  function OutputDir(env: Environment): string
  {
    env.tempLocation + "/ocr_pdf_" + NatToString(env.clock)
  }

  /** The rasterizer's contribution for this environment. */
  function Conversion(env: Environment, tempFiles: seq<string>): Conversion
  {
    ConvertPdf(OutputDir(env), env.poppler, env.entries, env.stat, tempFiles)
  }

  /** Everything a call produces: the result, the processor's temp-file list
      afterwards, the files and directories it removed (in order), the
      progress signals, the `errorOccurred` signal if any, and whether
      `processingCompleted` was emitted. */
  datatype Outcome = Outcome(result: ProcessResult, tempFiles: seq<string>,
                             removedFiles: seq<string>, removedDirs: seq<string>,
                             events: seq<Progress>, errorSignal: Option<string>,
                             completed: bool)

  // ----- Single image -------------------------------------------------------

  const ReadFailedPrefix: string := "无法读取图像文件: "
  const CorruptImage: string := "图像文件损坏或格式不正确"

  /** `processImageFile`. */
  function ProcessImage(path: string, maxWidth: int, maxHeight: int,
                        env: Environment, tempFiles: seq<string>): (o: Outcome)
    ensures o.result.WellFormed()
    ensures o.tempFiles == tempFiles && o.removedFiles == [] && o.removedDirs == []
    ensures o.errorSignal.None? && !o.completed
    ensures o.result.success <==> env.read(path).Readable? && !env.read(path).image.NullImage?
    ensures env.read(path).Unreadable? ==>
              o.result == Failure(ReadFailedPrefix + env.read(path).reason)
    ensures env.read(path).Readable? && env.read(path).image.NullImage? ==>
              o.result == Failure(CorruptImage)
    ensures o.result.success ==>
              && o.result.images == [ResizeImage(env.read(path).image, maxWidth, maxHeight, env.scale)]
              && o.result.pageNames == [BaseName(path)]
    ensures forall k :: 0 <= k < |o.events| ==> o.events[k].currentPage == o.events[k].totalPages == 1
    ensures NonDecreasing(Percents(o.events))
    ensures InRange(o.events)
    ensures o.result.success ==> |o.events| > 0 && o.events[|o.events| - 1].percent == 100
  {
    match env.read(path)
    case Unreadable(reason) =>
      Outcome(Failure(ReadFailedPrefix + reason), tempFiles, [], [], [], None, false)
    case Readable(image) =>
      if image.NullImage? then
        Outcome(Failure(CorruptImage), tempFiles, [], [], [Progress(30, 1, 1)], None, false)
      else
        GuardIsRedundant(image, maxWidth, maxHeight, env.scale);
        var resized := ResizeIfNeeded(image, maxWidth, maxHeight, env.scale);
        var events := [Progress(30, 1, 1), Progress(60, 1, 1), Progress(90, 1, 1), Progress(100, 1, 1)];
        assert Percents(events) == [30, 60, 90, 100];
        Outcome(ProcessResult([resized], true, "", 1, [BaseName(path)]),
                tempFiles, [], [], events, None, false)
  }

  // ----- PDF ----------------------------------------------------------------

  const PopplerMissing: string := "Poppler不可用。请确保Poppler已正确安装并配置路径"
  const ConversionFailed: string := "无法转换PDF文件"
  const NoPagesExtracted: string := "无法从PDF文件中提取图像"

  /** Positions (0-based) among the first `n` page files whose image loads:
      an independent description of which pages end up in the result. */
  function LoadedIndices(files: seq<string>, load: string -> Image, n: nat): (r: seq<nat>)
    requires n <= |files|
    ensures forall j :: 0 <= j < |r| ==> r[j] < n
    ensures forall i, j :: 0 <= i < j < |r| ==> r[i] < r[j]
    ensures forall k :: 0 <= k < n ==> (k in r <==> !load(files[k]).NullImage?)
    ensures |r| <= n
  {
    if n == 0 then []
    else
      var prefix := LoadedIndices(files, load, n - 1);
      if load(files[n - 1]).NullImage? then prefix else prefix + [n - 1]
  }

  /** Progress after the page at 0-based position `i` of `n` is loaded. */
  function PageProgress(i: nat, n: nat): int
    requires i < n
  {
    50 + (50 * (i + 1)) / n
  }

  /** The progress signals of the page-loading loop. */
  function PageEvents(n: nat, count: nat): (r: seq<Progress>)
    requires count <= n
    ensures |r| == count
    ensures forall k :: 0 <= k < count ==> r[k] == Progress(PageProgress(k, n), k + 1, n)
  {
    if count == 0 then [] else PageEvents(n, count - 1) + [Progress(PageProgress(count - 1, n), count, n)]
  }

  lemma PageProgressBounds(i: nat, n: nat)
    requires i < n
    ensures 50 <= PageProgress(i, n) <= 100
    ensures i == n - 1 ==> PageProgress(i, n) == 100
  {
    MulMonotone(50, i + 1, n);
    DivMonotone(50 * (i + 1), 50 * n, n);
    MulDivCancel(50, n);
  }

  lemma PageProgressRises(i: nat, j: nat, n: nat)
    requires i <= j < n
    ensures PageProgress(i, n) <= PageProgress(j, n)
  {
    MulMonotone(50, i + 1, j + 1);
    DivMonotone(50 * (i + 1), 50 * (j + 1), n);
  }

  /** Page progress climbs from above 50 to exactly 100. */
  lemma PageEventsRise(n: nat)
    requires n > 0
    ensures NonDecreasing(Percents(PageEvents(n, n)))
    ensures forall k :: 0 <= k < n ==> 50 <= Percents(PageEvents(n, n))[k] <= 100
    ensures Percents(PageEvents(n, n))[n - 1] == 100
  {
    var events := PageEvents(n, n);
    var p := Percents(events);
    forall i, j | 0 <= i < j < n ensures p[i] <= p[j] {
      assert p[i] == PageProgress(i, n) && p[j] == PageProgress(j, n);
      PageProgressRises(i, j, n);
    }
    forall k | 0 <= k < n ensures 50 <= p[k] <= 100 {
      assert p[k] == PageProgress(k, n);
      PageProgressBounds(k, n);
    }
    assert p[n - 1] == PageProgress(n - 1, n);
    PageProgressBounds(n - 1, n);
  }

  /** The full contract of `processPDFFile` for a given environment. */
  predicate PdfSpec(maxWidth: int, maxHeight: int, env: Environment, tempFiles: seq<string>, o: Outcome)
  {
    var conv := Conversion(env, tempFiles);
    if !env.popplerAvailable then
      o == Outcome(Failure(PopplerMissing), tempFiles, [], [], [], None, false)
    else if conv.files == [] then
      o == Outcome(Failure(ConversionFailed), tempFiles, [], [OutputDir(env)],
                   Untracked([5, 10] + conv.progress), None, false)
    else
      ConvertedSpec(maxWidth, maxHeight, env, conv, o)
  }

  /** `processPDFFile` once the rasterizer produced page files: the loaded
      pages in order, success exactly when one loaded, every temp file and
      the output directory removed. */
  predicate ConvertedSpec(maxWidth: int, maxHeight: int, env: Environment, conv: Conversion, o: Outcome)
  {
    var files := conv.files;
    && LoadedPrefix(files, maxWidth, maxHeight, env, |files|, o.result.images, o.result.pageNames)
    && (o.result.success <==> |LoadedIndices(files, env.load, |files|)| > 0)
    && (!o.result.success ==> o.result.errorMessage == NoPagesExtracted)
    && o.tempFiles == []
    && o.removedFiles == files + conv.tempFiles
    && o.removedDirs == [OutputDir(env)]
    && o.events == Untracked([5, 10] + conv.progress) + [Progress(40, 0, |files|)] + PageEvents(|files|, |files|)
    && o.errorSignal.None? && !o.completed
  }

  /** After the first `n` page files: one image and one name per loaded
      page, in order. */
  predicate LoadedPrefix(files: seq<string>, maxWidth: int, maxHeight: int, env: Environment,
                         n: nat, images: seq<Image>, names: seq<string>)
    requires n <= |files|
  {
    var loaded := LoadedIndices(files, env.load, n);
    && |images| == |names| == |loaded|
    && forall j :: 0 <= j < |loaded| ==>
         && images[j] == ResizeImage(env.load(files[loaded[j]]), maxWidth, maxHeight, env.scale)
         && names[j] == PageLabel(loaded[j] + 1)
  }

  /** One step of the loading loop: a page file that decodes adds its
      normalised image and its name; one that does not adds nothing. */
  lemma LoadStep(files: seq<string>, maxWidth: int, maxHeight: int, env: Environment, i: nat,
                 images: seq<Image>, names: seq<string>)
    requires i < |files| && LoadedPrefix(files, maxWidth, maxHeight, env, i, images, names)
    ensures env.load(files[i]).NullImage? ==> LoadedPrefix(files, maxWidth, maxHeight, env, i + 1, images, names)
    ensures !env.load(files[i]).NullImage? ==>
              LoadedPrefix(files, maxWidth, maxHeight, env, i + 1,
                           images + [ResizeImage(env.load(files[i]), maxWidth, maxHeight, env.scale)],
                           names + [PageLabel(i + 1)])
  {
    var before := LoadedIndices(files, env.load, i);
    if !env.load(files[i]).NullImage? {
      assert LoadedIndices(files, env.load, i + 1) == before + [i];
    } else {
      assert LoadedIndices(files, env.load, i + 1) == before;
    }
  }

  /** The page-loading loop of `processPDFFile`: every page file whose
      image decodes is normalised and named after its 1-based position; the
      others are skipped, leaving a gap in the numbering. */
  method LoadPages(files: seq<string>, maxWidth: int, maxHeight: int, env: Environment)
    returns (images: seq<Image>, names: seq<string>)
    ensures LoadedPrefix(files, maxWidth, maxHeight, env, |files|, images, names)
  {
    images, names := [], [];
    var i := 0;
    while i < |files|
      invariant 0 <= i <= |files|
      invariant LoadedPrefix(files, maxWidth, maxHeight, env, i, images, names)
    {
      LoadStep(files, maxWidth, maxHeight, env, i, images, names);
      var image := env.load(files[i]);
      if !image.NullImage? {
        GuardIsRedundant(image, maxWidth, maxHeight, env.scale);
        images := images + [ResizeIfNeeded(image, maxWidth, maxHeight, env.scale)];
        names := names + [PageLabel(i + 1)];
      }
      i := i + 1;
    }
  }

  /** The progress trace of a PDF whose conversion produced `n` files. */
  lemma PdfEventsRise(conv: seq<int>, n: nat)
    requires n > 0
    requires NonDecreasing(conv) && forall k :: 0 <= k < |conv| ==> 15 <= conv[k] <= 35
    ensures var p := [5, 10] + conv + [40] + Percents(PageEvents(n, n));
            && NonDecreasing(p)
            && (forall k :: 0 <= k < |p| ==> 0 <= p[k] <= 100)
            && p[|p| - 1] == 100
  {
    var opening := [5, 10] + conv;
    AppendNonDecreasing([5, 10], conv);
    AppendNonDecreasing(opening, [40]);
    PageEventsRise(n);
    AppendNonDecreasing(opening + [40], Percents(PageEvents(n, n)));
  }

  /** The signals before the pages: 5 and 10 without page information, the
      rasterizer's values, then 40 announcing the `n` page files. */
  lemma OpeningPercents(conv: seq<int>, n: nat)
    ensures Percents(Untracked([5, 10] + conv) + [Progress(40, 0, n)]) == [5, 10] + conv + [40]
  {
    PercentsAppend(Untracked([5, 10] + conv), [Progress(40, 0, n)]);
  }

  /** The well-formedness and progress guarantees shared by every outcome. */
  predicate Orderly(o: Outcome)
  {
    && o.result.WellFormed()
    && NonDecreasing(Percents(o.events))
    && InRange(o.events)
    && (o.result.success ==> |o.events| > 0 && o.events[|o.events| - 1].percent == 100)
  }

  /** The part of `processPDFFile` after a conversion that produced files:
      load the pages, clean up, report. */
  method LoadConverted(maxWidth: int, maxHeight: int, env: Environment, conv: Conversion)
    returns (o: Outcome)
    requires conv.files != []
    requires NonDecreasing(conv.progress)
    requires forall k :: 0 <= k < |conv.progress| ==> 15 <= conv.progress[k] <= 35
    ensures ConvertedSpec(maxWidth, maxHeight, env, conv, o)
    ensures Orderly(o)
  {
    var files := conv.files;
    var images, names := LoadPages(files, maxWidth, maxHeight, env);
    var success := |images| > 0;
    var result := ProcessResult(images, success, if success then "" else NoPagesExtracted, |images|, names);
    var opening := Untracked([5, 10] + conv.progress) + [Progress(40, 0, |files|)];
    var pages := PageEvents(|files|, |files|);
    OpeningPercents(conv.progress, |files|);
    PercentsAppend(opening, pages);
    PdfEventsRise(conv.progress, |files|);
    var cleaned := CleanupTempFiles(files, conv.tempFiles);
    o := Outcome(result, cleaned.tempFiles, cleaned.removed, [OutputDir(env)], opening + pages, None, false);
  }

  /** `processPDFFile`: rasterize, load every page file that decodes, name it
      after its position, clean up, and succeed when some page loaded. */
  method ProcessPdf(maxWidth: int, maxHeight: int, env: Environment, tempFiles: seq<string>)
    returns (o: Outcome)
    ensures PdfSpec(maxWidth, maxHeight, env, tempFiles, o)
    ensures Orderly(o)
  {
    if !env.popplerAvailable {
      return Outcome(Failure(PopplerMissing), tempFiles, [], [], [], None, false);
    }
    var conv := Conversion(env, tempFiles);
    if conv.files == [] {
      AppendNonDecreasing([5, 10], conv.progress);
      return Outcome(Failure(ConversionFailed), tempFiles, [], [OutputDir(env)],
                     Untracked([5, 10] + conv.progress), None, false);
    }
    o := LoadConverted(maxWidth, maxHeight, env, conv);
  }

  // ----- Cleanup ------------------------------------------------------------

  /** What `cleanupTempFiles` did: the paths it removed, in order, and the
      processor's temp-file list afterwards. Removing a path that is already
      gone is harmless, so repeats in `removed` are allowed. */
  datatype Cleanup = Cleanup(removed: seq<string>, tempFiles: seq<string>)

  /** `cleanupTempFiles`: remove the given paths, then every path the
      processor still records, and forget the records. */
  function CleanupTempFiles(paths: seq<string>, tempFiles: seq<string>): (c: Cleanup)
    ensures c.tempFiles == []
    ensures forall p :: p in c.removed <==> p in paths || p in tempFiles
    ensures |c.removed| >= |paths| && c.removed[..|paths|] == paths
  {
    Cleanup(paths + tempFiles, [])
  }

  /** A second cleanup with the same paths removes nothing new and leaves the
      records empty. */
  lemma CleanupIdempotent(paths: seq<string>, tempFiles: seq<string>)
    ensures var first := CleanupTempFiles(paths, tempFiles);
            var second := CleanupTempFiles(paths, first.tempFiles);
            && second.tempFiles == first.tempFiles == []
            && forall p :: p in second.removed ==> p in first.removed
  {
  }

  // ----- Dispatch -----------------------------------------------------------

  const MissingPrefix: string := "文件不存在: "
  const UnsupportedPrefix: string := "不支持的文件格式: "

  lemma PrefixInRange(start: Progress, events: seq<Progress>)
    requires 0 <= start.percent <= 100
    requires InRange(events)
    ensures InRange([start] + events)
  {
  }

  /** The image branch of `processFile`: the 10% signal, then
      `processImageFile`, with completion signalled on success. */
  method DispatchImage(path: string, maxWidth: int, maxHeight: int, env: Environment, tempFiles: seq<string>)
    returns (o: Outcome)
    ensures var image := ProcessImage(path, maxWidth, maxHeight, env, tempFiles);
            o == image.(events := [Progress(10, 0, 1)] + image.events, completed := image.result.success)
    ensures o.result.WellFormed() && (o.completed <==> o.result.success) && o.errorSignal.None?
    ensures o.tempFiles == tempFiles
    ensures InRange(o.events)
  {
    var start := Progress(10, 0, 1);
    var image := ProcessImage(path, maxWidth, maxHeight, env, tempFiles);
    o := image.(events := [start] + image.events, completed := image.result.success);
    PrefixInRange(start, image.events);
  }

  /** The PDF branch of `processFile`: the 10% signal, then `processPDFFile`,
      with completion signalled on success. */
  method DispatchPdf(maxWidth: int, maxHeight: int, env: Environment, tempFiles: seq<string>)
    returns (o: Outcome)
    ensures |o.events| > 0 && o.events[0] == Progress(10, 0, 1)
    ensures PdfSpec(maxWidth, maxHeight, env, tempFiles, o.(events := o.events[1..], completed := false))
    ensures o.result.WellFormed() && (o.completed <==> o.result.success) && o.errorSignal.None?
    ensures tempFiles == [] ==> o.tempFiles == []
    ensures InRange(o.events)
  {
    var start := Progress(10, 0, 1);
    var pdf := ProcessPdf(maxWidth, maxHeight, env, tempFiles);
    o := pdf.(events := [start] + pdf.events, completed := pdf.result.success);
    PrefixInRange(start, pdf.events);
    assert o.events[1..] == pdf.events;
    assert o.(events := o.events[1..], completed := false) == pdf;
  }

  /** The fallback of `processFile` for a file type it does not handle. */
  method Unsupported(path: string, tempFiles: seq<string>) returns (o: Outcome)
    ensures o.result == Failure(UnsupportedPrefix + Suffix(path)) && o.result.WellFormed()
    ensures o.errorSignal == Some(UnsupportedPrefix + Suffix(path)) && !o.completed
    ensures o.tempFiles == tempFiles
    ensures o.events == [Progress(10, 0, 1)] && InRange(o.events)
  {
    var message := UnsupportedPrefix + Suffix(path);
    FailureIsWellFormed(message);
    o := Outcome(Failure(message), tempFiles, [], [], [Progress(10, 0, 1)], Some(message), false);
  }

  /** `processFile`: check existence, emit 10%, dispatch on the file type,
      and signal completion on success. */
  method ProcessFile(path: string, maxWidth: int, maxHeight: int,
                     env: Environment, tempFiles: seq<string>)
    returns (o: Outcome)
    ensures o.result.WellFormed()
    ensures o.completed <==> o.result.success
    ensures o.errorSignal.Some? ==> o.errorSignal.value == o.result.errorMessage
    ensures !env.present(path) ==>
              o == Outcome(Failure(MissingPrefix + path), tempFiles, [], [], [], Some(MissingPrefix + path), false)
    ensures env.present(path) && GetFileType(path) == Unknown ==>
              && o.result == Failure(UnsupportedPrefix + Suffix(path))
              && o.errorSignal == Some(UnsupportedPrefix + Suffix(path))
              && o.tempFiles == tempFiles
    ensures env.present(path) ==> |o.events| > 0 && o.events[0] == Progress(10, 0, 1)
    ensures env.present(path) && GetFileType(path).IsImage() ==>
              var image := ProcessImage(path, maxWidth, maxHeight, env, tempFiles);
              o == image.(events := [Progress(10, 0, 1)] + image.events, completed := image.result.success)
    ensures env.present(path) && GetFileType(path) == DocumentPdf ==>
              && PdfSpec(maxWidth, maxHeight, env, tempFiles, o.(events := o.events[1..], completed := false))
              && o.errorSignal.None?
    ensures env.present(path) && GetFileType(path) == DocumentPdf && env.popplerAvailable ==>
              |o.events| > 1 && o.events[1] == Progress(5, 0, 0) && o.events[1].percent < o.events[0].percent
    ensures o.result.success ==> env.present(path) && IsFileSupported(path)
    ensures tempFiles == [] ==> o.tempFiles == []
    ensures InRange(o.events)
  {
    if !env.present(path) {
      var message := MissingPrefix + path;
      return Outcome(Failure(message), tempFiles, [], [], [], Some(message), false);
    }
    var fileType := GetFileType(path);
    if fileType.IsImage() {
      o := DispatchImage(path, maxWidth, maxHeight, env, tempFiles);
    } else if fileType == DocumentPdf {
      o := DispatchPdf(maxWidth, maxHeight, env, tempFiles);
      if env.popplerAvailable {
        PdfProgressRestarts(maxWidth, maxHeight, env, tempFiles, o.(events := o.events[1..], completed := false));
      }
    } else {
      o := Unsupported(path, tempFiles);
    }
  }

  /** With the rasterizer available, the PDF path's first signal is 5%;
      after the dispatcher's 10% this makes the progress of `processFile`
      fall back for every PDF. */
  lemma PdfProgressRestarts(maxWidth: int, maxHeight: int, env: Environment,
                            tempFiles: seq<string>, o: Outcome)
    requires env.popplerAvailable
    requires PdfSpec(maxWidth, maxHeight, env, tempFiles, o)
    ensures |o.events| > 0 && o.events[0] == Progress(5, 0, 0)
  {
  }
}
