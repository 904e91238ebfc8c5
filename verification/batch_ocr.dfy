/** `TesseractOCREngine::performBatchOCR`: recognise a list of page images one
    after another, keep one text and one confidence per page, join the usable
    texts under their page names, and report progress as
    `batchProgressUpdated` signals, returned here as a list. */
module BatchOcr {
  import opened Text
  import opened Wrappers
  import opened Sorting
  import opened Arithmetic
  import opened Resize
  import opened OcrEngine

  // ----- Progress signals ---------------------------------------------------

  /** One `batchProgressUpdated(progress, currentPage, totalPages, pageProgress)`. */
  datatype BatchProgress = BatchProgress(progress: int, currentPage: nat, totalPages: nat, pageProgress: int)

  /** Every value is a percentage. */
  predicate Percents(ps: seq<int>)
  {
    forall k :: 0 <= k < |ps| ==> 0 <= ps[k] <= 100
  }

  /** The signal for page `i` (0-based) of `n` at page progress `p`: the
      overall percentage is `(i * 100 + p) / n`. */
  function Event(i: nat, n: nat, p: int): BatchProgress
    requires i < n && 0 <= p
  {
    BatchProgress((i * 100 + p) / n, i + 1, n, p)
  }

  /** The signals of page `i` of `n` for the page progress values `ps`. */
  function Events(i: nat, n: nat, ps: seq<int>): (evs: seq<BatchProgress>)
    requires i < n && Percents(ps)
    ensures |evs| == |ps|
  {
    seq(|ps|, k requires 0 <= k < |ps| => Event(i, n, ps[k]))
  }

  /** Where a signal lies on the whole batch's scale of `100 * n`. */
  function Key(ev: BatchProgress): int
  {
    (ev.currentPage - 1) * 100 + ev.pageProgress
  }

  function Keys(evs: seq<BatchProgress>): (r: seq<int>)
    ensures |r| == |evs|
  {
    seq(|evs|, k requires 0 <= k < |evs| => Key(evs[k]))
  }

  /** The overall percentages, in the order they were signalled. */
  function Overall(evs: seq<BatchProgress>): (r: seq<int>)
    ensures |r| == |evs|
  {
    seq(|evs|, k requires 0 <= k < |evs| => evs[k].progress)
  }

  /** The pages, in the order they were signalled. */
  function CurrentPages(evs: seq<BatchProgress>): (r: seq<int>)
    ensures |r| == |evs|
  {
    seq(|evs|, k requires 0 <= k < |evs| => evs[k].currentPage)
  }

  /** Each signal names a batch of `n` pages and a page among them, and its
      overall percentage is its position on the batch's scale divided by `n`. */
  predicate Consistent(evs: seq<BatchProgress>, n: nat)
  {
    forall k :: 0 <= k < |evs| ==>
      && evs[k].totalPages == n && 1 <= evs[k].currentPage <= n
      && 0 <= evs[k].pageProgress <= 100
      && n > 0 && evs[k].progress == Key(evs[k]) / n
  }

  /** All values lie in `lo..hi`. */
  predicate Within(s: seq<int>, lo: int, hi: int)
  {
    forall k :: 0 <= k < |s| ==> lo <= s[k] <= hi
  }

  lemma KeysAppend(a: seq<BatchProgress>, b: seq<BatchProgress>)
    ensures Keys(a + b) == Keys(a) + Keys(b)
    ensures CurrentPages(a + b) == CurrentPages(a) + CurrentPages(b)
  {
  }

  /** The signals of one page sit on that page's stretch of the scale, in
      the order of the page progress values. */
  lemma {:induction false} EventsOrdered(i: nat, n: nat, ps: seq<int>)
    requires i < n && Percents(ps) && NonDecreasing(ps)
    ensures Consistent(Events(i, n, ps), n)
    ensures NonDecreasing(Keys(Events(i, n, ps)))
    ensures Within(Keys(Events(i, n, ps)), i * 100, i * 100 + 100)
    ensures forall k :: 0 <= k < |ps| ==> Keys(Events(i, n, ps))[k] == i * 100 + ps[k]
    ensures forall k :: 0 <= k < |ps| ==> CurrentPages(Events(i, n, ps))[k] == i + 1
  {
    var evs := Events(i, n, ps);
    forall k | 0 <= k < |ps|
      ensures Key(evs[k]) == i * 100 + ps[k]
    {
      assert evs[k] == Event(i, n, ps[k]);
    }
  }

  // ----- One page -----------------------------------------------------------

  const ErrorPrefix: string := "错误: "

  /** Entries starting with this are failures and stay out of the combined text. */
  const ErrorMarker: string := "错误:"

  /** The entry of a null image at 0-based position `i`. */
  function InvalidPage(i: nat): string
  {
    "错误: 第" + NatToString(i + 1) + "页图像无效"
  }

  /** What one page contributes: its text, its confidence, and whether it
      counts as processed. */
  datatype Entry = Entry(text: string, confidence: real, ok: bool)

  /** A success keeps its text and confidence; a failure is recorded as
      "错误: " and its message, with confidence 0. */
  function EntryOf(r: OcrResult): (en: Entry)
    ensures en.ok == r.success
    ensures !en.ok ==> ErrorMarker <= en.text && en.confidence == 0.0
    ensures en.ok ==> en.text == r.text && en.confidence == r.confidence
  {
    if r.success then Entry(r.text, r.confidence, true) else Entry(ErrorPrefix + r.errorMessage, 0.0, false)
  }

  /** What a page did to the engine's temp files:
      - `Untouched`: nothing was saved (a null image, or the save failed);
      - `Cleaned`: the run failed after the image was saved, so
        `cleanupTempFiles` removed every recorded file, the image included;
      - `Kept`: the run succeeded; the image and both outputs were removed
        but the image stays recorded. */
  datatype Files = Untouched | Cleaned(image: string) | Kept(image: string, text: string, tsv: string)

  /** The engine's temp-file list afterwards, and the files removed. */
  datatype Applied = Applied(engine: Engine, removed: seq<string>)

  function Apply(e: Engine, f: Files): (a: Applied)
    ensures a.engine == e.(tempFiles := a.engine.tempFiles)
  {
    match f
    case Untouched => Applied(e, [])
    case Cleaned(image) => Applied(e.(tempFiles := []), e.tempFiles + [image])
    case Kept(image, text, tsv) => Applied(e.(tempFiles := e.tempFiles + [image]), [image, text, tsv])
  }

  /** A page's progress values: percentages, in order, ending at 100. */
  predicate ValidTrace(t: seq<int>)
  {
    Percents(t) && NonDecreasing(t) && |t| > 0 && t[|t| - 1] == 100
  }

  /** One page of the loop: its entry, its page progress values, what it
      did to the temp files, and the message the process slot sent for it,
      if any. */
  datatype PageRun = PageRun(entry: Entry, trace: seq<int>, files: Files, fault: Option<string>)

  /** Page `i` on its own, with the engine's settings `s`. A null image is
      recorded as invalid with the single value 100 and tesseract is not
      run. Any other image is recognised, and its values are 0, what the
      recognition reported, and 100. */
  function RunPage(s: Settings, image: Image, i: nat, language: string, io: PageIo,
                   parse: string -> Option<real>): (r: PageRun)
    ensures r.entry.ok <==> !image.NullImage? && Recognise(s, language, io, parse).Recognised?
    ensures !r.entry.ok ==> ErrorMarker <= r.entry.text && r.entry.confidence == 0.0
    ensures ValidTrace(r.trace) && r.trace[0] == if image.NullImage? then 100 else 0
    ensures image.NullImage? ==> r.entry.text == InvalidPage(i) && r.files == Untouched && r.fault.None?
    ensures !image.NullImage? ==> r.fault == RunFault(s, language, io)
    ensures r.fault.Some? ==> !r.entry.ok
  {
    if image.NullImage? then PageRun(Entry(InvalidPage(i), 0.0, false), [100], Untouched, None)
    else
      var a := Recognise(s, language, io, parse);
      var files := match a
                   case NotSaved => Untouched
                   case Failed(_, _) => Cleaned(ImagePath(io))
                   case Recognised(_, _, _) => Kept(ImagePath(io), TextPath(io), TsvPath(io));
      TraceOrdered(ProgressOf(a));
      PageRun(EntryOf(ResultOf(a)), [0] + ProgressOf(a) + [100], files, RunFault(s, language, io))
  }

  /** Bracketing a recognition's percentages with 0 and 100 keeps them in
      order. */
  lemma TraceOrdered(progress: seq<int>)
    requires NonDecreasing(progress) && Within(progress, 10, 100)
    ensures var t := [0] + progress + [100];
            ValidTrace(t) && t[0] == 0
  {
    if |progress| > 0 {
      assert progress[0] >= 10 && progress[|progress| - 1] <= 100;
    }
    AppendNonDecreasing([0], progress);
    AppendNonDecreasing([0] + progress, [100]);
  }

  /** With an initialised engine, a page of the loop is exactly
      `performSinglePageOCRWithBatchProgress`, that is `performOCR`: the same
      result, the same values bracketed by 0 and 100, the same temp files,
      the same process-slot message and last error. */
  lemma RunPageIsPerformOcr(e: Engine, tool: Toolchain, image: Image, i: nat, language: string,
                            io: PageIo, parse: string -> Option<real>)
    requires e.initialized && !image.NullImage?
    ensures var o := RecognizePage(e, tool, image, language, io, parse);
            var r := RunPage(e.settings, image, i, language, io, parse);
            && r.entry == EntryOf(o.result) && r.trace == [0] + o.progress + [100]
            && Apply(e, r.files) == Applied(o.engine.(lastError := e.lastError), o.removed)
            && r.fault == o.errorSignal && o.engine.lastError == Reported(e.lastError, r.fault)
  {
    ReadyEngineRecognises(e, tool, image, language, io, parse);
  }

  // ----- The page loop ------------------------------------------------------

  /** Every page's values are valid. */
  predicate ValidRuns(runs: seq<PageRun>)
  {
    forall i :: 0 <= i < |runs| ==> ValidTrace(runs[i].trace)
  }

  /** The pages of the batch, each on its own; page `i` observes `ios(i)`. */
  function Runs(s: Settings, images: seq<Image>, language: string, ios: nat -> PageIo,
                parse: string -> Option<real>): (runs: seq<PageRun>)
    ensures |runs| == |images| && ValidRuns(runs)
    ensures forall i :: 0 <= i < |runs| ==> !runs[i].entry.ok ==> ErrorMarker <= runs[i].entry.text
  {
    var runs := seq(|images|, i requires 0 <= i < |images| => RunPage(s, images[i], i, language, ios(i), parse));
    assert forall i :: 0 <= i < |runs| ==> runs[i] == RunPage(s, images[i], i, language, ios(i), parse);
    runs
  }

  /** The loop's state after some pages: the engine, the entries so far, the
      files removed, the progress signals and the `errorOccurred` messages
      sent. */
  datatype Tally = Tally(engine: Engine, entries: seq<Entry>, removed: seq<string>, events: seq<BatchProgress>,
                         errors: seq<string>)

  /** The messages of an optional signal. */
  function Sent(signal: Option<string>): (r: seq<string>)
    ensures |r| <= 1 && (r == [] <==> signal.None?)
  {
    if signal.Some? then [signal.value] else []
  }

  /** The last message sent, or `lastError` when none was: `m_lastError`
      after the slot fired for each of `errors` in turn. */
  function LastOr(lastError: string, errors: seq<string>): string
  {
    if errors == [] then lastError else errors[|errors| - 1]
  }

  /** The page loop over the first `k` of `runs`. */
  function PagesUpTo(e: Engine, runs: seq<PageRun>, k: nat): (t: Tally)
    requires k <= |runs| && ValidRuns(runs)
    ensures |t.entries| == k && forall i :: 0 <= i < k ==> t.entries[i] == runs[i].entry
    ensures t.engine == e.(tempFiles := t.engine.tempFiles, lastError := t.engine.lastError)
    ensures t.engine.lastError == LastOr(e.lastError, t.errors)
    ensures |t.errors| <= k && (t.errors == [] <==> forall i :: 0 <= i < k ==> runs[i].fault.None?)
    decreases k
  {
    if k == 0 then Tally(e, [], [], [], [])
    else
      var before := PagesUpTo(e, runs, k - 1);
      var after := Apply(before.engine, runs[k - 1].files);
      var fault := runs[k - 1].fault;
      Tally(after.engine.(lastError := Reported(after.engine.lastError, fault)),
            before.entries + [runs[k - 1].entry], before.removed + after.removed,
            before.events + Events(k - 1, |runs|, runs[k - 1].trace), before.errors + Sent(fault))
  }

  /** Signals after `k` pages of `n`: consistent, in order on the batch's
      scale and by page, within the first `k` pages, ending at the end of
      page `k`. */
  predicate Ordered(evs: seq<BatchProgress>, n: nat, k: nat)
  {
    && Consistent(evs, n) && NonDecreasing(Keys(evs)) && Within(Keys(evs), 0, k * 100)
    && NonDecreasing(CurrentPages(evs)) && Within(CurrentPages(evs), 1, k)
    && (k == 0 <==> evs == [])
    && (k > 0 ==> Keys(evs)[|evs| - 1] == k * 100)
  }

  /** The loop's signals are ordered after every page. */
  lemma {:induction false} TallyEventsOrdered(e: Engine, runs: seq<PageRun>, k: nat)
    requires k <= |runs| && ValidRuns(runs)
    ensures Ordered(PagesUpTo(e, runs, k).events, |runs|, k)
    decreases k
  {
    if k > 0 {
      TallyEventsOrdered(e, runs, k - 1);
      var trace := runs[k - 1].trace;
      EventsOrdered(k - 1, |runs|, trace);
      EventsStep(PagesUpTo(e, runs, k - 1).events, Events(k - 1, |runs|, trace), |runs|, k, trace);
    }
  }

  /** Appending the signals of page `k` (1-based) keeps the signals ordered. */
  lemma EventsStep(before: seq<BatchProgress>, page: seq<BatchProgress>, n: nat, k: nat, trace: seq<int>)
    requires 0 < k <= n && Ordered(before, n, k - 1) && ValidTrace(trace) && |page| == |trace|
    requires Consistent(page, n) && NonDecreasing(Keys(page))
    requires Within(Keys(page), (k - 1) * 100, (k - 1) * 100 + 100)
    requires forall j :: 0 <= j < |trace| ==> Keys(page)[j] == (k - 1) * 100 + trace[j]
    requires forall j :: 0 <= j < |trace| ==> CurrentPages(page)[j] == k
    ensures Ordered(before + page, n, k)
  {
    KeysAppend(before, page);
    AppendNonDecreasing(Keys(before), Keys(page));
    PagesOrdered(CurrentPages(before), CurrentPages(page), k);
    var evs := before + page;
    assert Keys(evs)[|evs| - 1] == Keys(page)[|page| - 1];
    assert Within(Keys(evs), 0, k * 100) by {
      forall j | 0 <= j < |evs| ensures 0 <= Keys(evs)[j] <= k * 100 {
        if j >= |before| {
          assert Keys(evs)[j] == Keys(page)[j - |before|];
        }
      }
    }
    assert Consistent(evs, n) by {
      forall j | 0 <= j < |evs|
        ensures evs[j].totalPages == n && 1 <= evs[j].currentPage <= n
        ensures 0 <= evs[j].pageProgress <= 100
        ensures n > 0 && evs[j].progress == Key(evs[j]) / n
      {
        if j >= |before| {
          assert evs[j] == page[j - |before|];
        }
      }
    }
  }

  /** Pages seen so far, all at most `k - 1`, followed by signals for page `k`. */
  lemma PagesOrdered(a: seq<int>, b: seq<int>, k: nat)
    requires k > 0
    requires NonDecreasing(a) && Within(a, 1, k - 1)
    requires forall j :: 0 <= j < |b| ==> b[j] == k
    ensures NonDecreasing(a + b) && Within(a + b, 1, k)
  {
    var c := a + b;
    forall i, j | 0 <= i < j < |c| ensures c[i] <= c[j] {
      if j >= |a| {
        assert c[j] == b[j - |a|] == k;
      }
    }
  }

  // ----- Names and the combined text ----------------------------------------

  /** `actualPageNames`: the caller's names, extended with "页面 k" labels
      until there are `n`; never shortened. */
  function PadNames(names: seq<string>, n: nat): (r: seq<string>)
    ensures |r| == if |names| >= n then |names| else n
    ensures r[..|names|] == names
    ensures forall k :: |names| <= k < |r| ==> r[k] == PageLabel(k + 1)
    decreases n - |names|
  {
    if |names| >= n then names else PadNames(names + [PageLabel(|names| + 1)], n)
  }

  /** Padding twice pads once, and a long enough list is left alone. */
  lemma PadNamesIdempotent(names: seq<string>, n: nat)
    ensures PadNames(PadNames(names, n), n) == PadNames(names, n)
    ensures |names| >= n ==> PadNames(names, n) == names
  {
  }

  /** An entry goes into the combined text when it is non-empty and does not
      start with "错误:". */
  predicate Included(text: string)
  {
    text != "" && !(ErrorMarker <= text)
  }

  /** The positions among the first `k` texts that are included, in order. */
  function IncludedIndices(texts: seq<string>, k: nat): (r: seq<nat>)
    requires k <= |texts|
    ensures forall j :: 0 <= j < |r| ==> r[j] < k && Included(texts[r[j]])
    ensures forall i :: 0 <= i < k && Included(texts[i]) ==> i in r
    ensures forall a, b :: 0 <= a < b < |r| ==> r[a] < r[b]
    decreases k
  {
    if k == 0 then []
    else IncludedIndices(texts, k - 1) + (if Included(texts[k - 1]) then [k - 1] else [])
  }

  /** One part of the combined text, as `"=== %1 ===\n%2"` renders it. */
  function Section(name: string, text: string): string
  {
    "=== " + name + " ===\n" + text
  }

  /** The loop that collects the parts: the included texts among the first
      `k`, each under its page name. */
  function Sections(texts: seq<string>, names: seq<string>, k: nat): (r: seq<string>)
    requires k <= |texts| <= |names|
    ensures |r| == |IncludedIndices(texts, k)|
    ensures forall j :: 0 <= j < |r| ==>
              r[j] == Section(names[IncludedIndices(texts, k)[j]], texts[IncludedIndices(texts, k)[j]])
    decreases k
  {
    if k == 0 then []
    else
      Sections(texts, names, k - 1)
      + (if Included(texts[k - 1]) then [Section(names[k - 1], texts[k - 1])] else [])
  }

  /** `combinedText`: the parts joined by blank lines. */
  function Combined(texts: seq<string>, names: seq<string>): string
    requires |texts| <= |names|
  {
    Join(Sections(texts, names, |texts|), "\n\n")
  }

  // ----- Counting and messages ----------------------------------------------

  /** `processedPages`: how many entries succeeded. */
  function Successes(entries: seq<Entry>): (c: nat)
    ensures c <= |entries|
    ensures c == 0 <==> forall i :: 0 <= i < |entries| ==> !entries[i].ok
    ensures c == |entries| <==> forall i :: 0 <= i < |entries| ==> entries[i].ok
    decreases |entries|
  {
    if |entries| == 0 then 0
    else
      var init := entries[..|entries| - 1];
      assert forall i :: 0 <= i < |init| ==> init[i] == entries[i];
      Successes(init) + (if entries[|entries| - 1].ok then 1 else 0)
  }

  const EmptyBatch: string := "输入图像列表为空"
  const AllPagesFailed: string := "所有页面处理失败"

  /** `QString("部分页面处理失败: 成功 %1/%2 页")` with both counts. */
  function PartialMessage(k: nat, n: nat): string
  {
    "部分页面处理失败: 成功 " + NatToString(k) + "/" + NatToString(n) + " 页"
  }

  /** The batch's error message for `k` processed pages out of `n`. */
  function BatchMessage(k: nat, n: nat): (m: string)
    ensures m == AllPagesFailed <==> k == 0
    ensures m == "" <==> 0 < k && n <= k
    ensures 0 < k < n <==> m == PartialMessage(k, n)
  {
    assert AllPagesFailed[0] != PartialMessage(k, n)[0];
    if k == 0 then AllPagesFailed else if k < n then PartialMessage(k, n) else ""
  }

  const PartialHead: string := "部分页面处理失败: 成功 "
  const PartialTail: string := " 页"

  lemma PartialMessageShape(k: nat, n: nat)
    ensures PartialMessage(k, n) == PartialHead + (NatToString(k) + ("/" + (NatToString(n) + PartialTail)))
  {
  }

  lemma CancelPrefix(p: string, a: string, b: string)
    requires p + a == p + b
    ensures a == b
  {
    assert a == (p + a)[|p|..];
    assert b == (p + b)[|p|..];
  }

  /** The partial-failure message names its counts unambiguously. */
  lemma PartialMessageDetermines(k1: nat, n1: nat, k2: nat, n2: nat)
    requires PartialMessage(k1, n1) == PartialMessage(k2, n2)
    ensures k1 == k2 && n1 == n2
  {
    var rest1, rest2 := "/" + (NatToString(n1) + PartialTail), "/" + (NatToString(n2) + PartialTail);
    PartialMessageShape(k1, n1);
    PartialMessageShape(k2, n2);
    CancelPrefix(PartialHead, NatToString(k1) + rest1, NatToString(k2) + rest2);
    assert rest1[0] == '/' && rest2[0] == '/';
    DigitRunUnique(NatToString(k1), rest1, NatToString(k2), rest2);
    NatToStringInjective(k1, k2);
    CancelPrefix("/", NatToString(n1) + PartialTail, NatToString(n2) + PartialTail);
    assert PartialTail[0] == ' ';
    DigitRunUnique(NatToString(n1), PartialTail, NatToString(n2), PartialTail);
    NatToStringInjective(n1, n2);
  }

  // ----- The batch ----------------------------------------------------------

  /** Everything `performBatchOCR` produces: the result, the engine
      afterwards, the files removed, the `batchProgressUpdated` signals, the
      `errorOccurred` messages (of a failed initialisation, or of the process
      slot page by page), and whether `batchOcrCompleted` was emitted. */
  datatype BatchOutcome = BatchOutcome(result: BatchResult, engine: Engine, removed: seq<string>,
                                       events: seq<BatchProgress>, errorSignals: seq<string>,
                                       completed: bool)

  function Texts(entries: seq<Entry>): (r: seq<string>)
    ensures |r| == |entries|
  {
    seq(|entries|, i requires 0 <= i < |entries| => entries[i].text)
  }

  function Scores(entries: seq<Entry>): (r: seq<real>)
    ensures |r| == |entries|
  {
    seq(|entries|, i requires 0 <= i < |entries| => entries[i].confidence)
  }

  function Entries(runs: seq<PageRun>): (r: seq<Entry>)
    ensures |r| == |runs|
  {
    seq(|runs|, i requires 0 <= i < |runs| => runs[i].entry)
  }

  /** The page loop and the assembly of the result, for the non-empty list
      of pages `runs` and an initialised engine. */
  function Assemble(ready: Engine, runs: seq<PageRun>, pageNames: seq<string>): (o: BatchOutcome)
    requires |runs| > 0 && ValidRuns(runs)
    ensures o.completed && o.result.totalPages == |runs|
    ensures |o.result.texts| == |runs| && |o.result.confidences| == |runs|
    ensures |o.result.pageNames| >= |runs| && o.result.processedPages <= |runs|
    ensures o.result.success <==> o.result.processedPages > 0
    ensures o.engine == ready.(tempFiles := o.engine.tempFiles, lastError := o.engine.lastError)
    ensures o.engine.lastError == LastOr(ready.lastError, o.errorSignals)
    ensures |o.errorSignals| <= |runs| && (o.errorSignals == [] <==> forall i :: 0 <= i < |runs| ==> runs[i].fault.None?)
  {
    var n := |runs|;
    var names := PadNames(pageNames, n);
    var t := PagesUpTo(ready, runs, n);
    var texts := Texts(t.entries);
    var processed := Successes(t.entries);
    var result := BatchResult(texts, names, Scores(t.entries), Combined(texts, names),
                              processed > 0, BatchMessage(processed, n), processed, n);
    BatchOutcome(result, t.engine, t.removed, t.events, t.errors, true)
  }

  /** `performBatchOCR`: initialise if needed, refuse an empty list, run the
      page loop, then assemble the result; `batchOcrCompleted` only when the
      loop ran. */
  function PerformBatch(e: Engine, tool: Toolchain, images: seq<Image>, pageNames: seq<string>,
                        language: string, ios: nat -> PageIo, parse: string -> Option<real>): (o: BatchOutcome)
    ensures o.result.totalPages == |images|
    ensures o.completed <==> Initialize(e, tool).ok && |images| > 0
    ensures !Initialize(e, tool).ok ==>
              && o.result == DefaultBatchResult.(totalPages := |images|, errorMessage := o.engine.lastError)
              && o.engine == Initialize(e, tool).engine && o.events == [] && o.removed == []
              && o.errorSignals == [o.engine.lastError]
    ensures Initialize(e, tool).ok && |images| == 0 ==>
              && o.result == DefaultBatchResult.(errorMessage := EmptyBatch) && o.events == [] && o.removed == []
              && o.errorSignals == [] && o.engine == Initialize(e, tool).engine
    ensures o.completed ==>
              && |o.result.texts| == |images| && |o.result.confidences| == |images|
              && |o.result.pageNames| >= |images| && o.result.processedPages <= |images|
              && (o.result.success <==> o.result.processedPages > 0)
              && o.engine == Initialize(e, tool).engine.(tempFiles := o.engine.tempFiles,
                                                          lastError := o.engine.lastError)
              && o.engine.lastError == LastOr(e.lastError, o.errorSignals)
  {
    var n := |images|;
    var init := Initialize(e, tool);
    if !init.ok then
      BatchOutcome(DefaultBatchResult.(totalPages := n, errorMessage := init.engine.lastError),
                   init.engine, [], [], Sent(init.errorSignal), false)
    else if n == 0 then
      BatchOutcome(DefaultBatchResult.(errorMessage := EmptyBatch), init.engine, [], [], [], false)
    else
      Assemble(init.engine, Runs(init.engine.settings, images, language, ios, parse), pageNames)
  }

  /** Once the engine is ready and there are pages, the batch is the
      assembly of its pages, each run on its own with the engine's settings. */
  lemma CompletedIsAssembled(e: Engine, tool: Toolchain, images: seq<Image>, pageNames: seq<string>,
                             language: string, ios: nat -> PageIo, parse: string -> Option<real>)
    requires Initialize(e, tool).ok && |images| > 0
    ensures PerformBatch(e, tool, images, pageNames, language, ios, parse)
         == Assemble(Initialize(e, tool).engine, Runs(e.settings, images, language, ios, parse), pageNames)
  {
  }

  /** The loop's entries are the pages' own, in order, and `processedPages`
      counts the successful ones. */
  lemma AssembleEntries(ready: Engine, runs: seq<PageRun>, pageNames: seq<string>)
    requires |runs| > 0 && ValidRuns(runs)
    ensures var r := Assemble(ready, runs, pageNames).result;
            && r.texts == Texts(Entries(runs)) && r.confidences == Scores(Entries(runs))
            && r.processedPages == Successes(Entries(runs))
  {
    assert PagesUpTo(ready, runs, |runs|).entries == Entries(runs);
  }

  /** The result's message, read against the entries. */
  lemma AssembleVerdict(ready: Engine, runs: seq<PageRun>, pageNames: seq<string>)
    requires |runs| > 0 && ValidRuns(runs)
    ensures var r := Assemble(ready, runs, pageNames).result;
            var ref := Entries(runs);
            && (r.success <==> exists i :: 0 <= i < |runs| && ref[i].ok)
            && (r.errorMessage == AllPagesFailed <==> forall i :: 0 <= i < |runs| ==> !ref[i].ok)
            && (r.errorMessage == "" <==> forall i :: 0 <= i < |runs| ==> ref[i].ok)
            && (0 < r.processedPages < |runs| <==> r.errorMessage == PartialMessage(r.processedPages, |runs|))
  {
    AssembleEntries(ready, runs, pageNames);
  }

  /** The included positions among `texts` are exactly the entries that
      succeeded with an includable text. */
  predicate IncludesExactly(texts: seq<string>, ref: seq<Entry>)
  {
    && |texts| == |ref|
    && forall i :: 0 <= i < |ref| ==>
         (i in IncludedIndices(texts, |texts|) <==> ref[i].ok && Included(ref[i].text))
  }

  /** The combined text and the names, read against the entries. */
  lemma AssembleCombined(ready: Engine, runs: seq<PageRun>, pageNames: seq<string>)
    requires |runs| > 0 && ValidRuns(runs)
    requires forall i :: 0 <= i < |runs| ==> !runs[i].entry.ok ==> ErrorMarker <= runs[i].entry.text
    ensures var r := Assemble(ready, runs, pageNames).result;
            && r.combinedText == Join(Sections(r.texts, r.pageNames, |runs|), "\n\n")
            && IncludesExactly(r.texts, Entries(runs))
            && r.pageNames[..|pageNames|] == pageNames
  {
    AssembleEntries(ready, runs, pageNames);
    FailuresLeftOut(runs);
  }

  /** Failed entries are never included; the rest are included exactly when
      their text is. */
  lemma FailuresLeftOut(runs: seq<PageRun>)
    requires forall i :: 0 <= i < |runs| ==> !runs[i].entry.ok ==> ErrorMarker <= runs[i].entry.text
    ensures IncludesExactly(Texts(Entries(runs)), Entries(runs))
  {
  }

  /** The loop's signals, read as overall percentages. */
  lemma AssembleProgress(ready: Engine, runs: seq<PageRun>, pageNames: seq<string>)
    requires |runs| > 0 && ValidRuns(runs)
    ensures var evs := Assemble(ready, runs, pageNames).events;
            && |evs| > 0
            && NonDecreasing(Overall(evs)) && Within(Overall(evs), 0, 100)
            && Overall(evs)[|evs| - 1] == 100
            && NonDecreasing(CurrentPages(evs)) && Within(CurrentPages(evs), 1, |runs|)
            && (forall k :: 0 <= k < |evs| ==> evs[k].totalPages == |runs|)
  {
    TallyEventsOrdered(ready, runs, |runs|);
    OverallFromKeys(PagesUpTo(ready, runs, |runs|).events, |runs|);
  }

  /** Each page's text and confidence depend only on its image and what its
      recognition observes, whatever the pages before it did;
      `processedPages` counts the successful pages; the batch succeeds
      exactly when some page does; the message is "所有页面处理失败"
      exactly when none does, empty exactly when all do, and otherwise names
      the count of successes and of pages. */
  lemma BatchVerdict(e: Engine, tool: Toolchain, images: seq<Image>, pageNames: seq<string>,
                     language: string, ios: nat -> PageIo, parse: string -> Option<real>)
    requires Initialize(e, tool).ok && |images| > 0
    ensures var r := PerformBatch(e, tool, images, pageNames, language, ios, parse).result;
            var ref := Entries(Runs(e.settings, images, language, ios, parse));
            && r.texts == Texts(ref) && r.confidences == Scores(ref)
            && r.processedPages == Successes(ref)
            && (r.success <==> exists i :: 0 <= i < |images| && ref[i].ok)
            && (r.errorMessage == AllPagesFailed <==> forall i :: 0 <= i < |images| ==> !ref[i].ok)
            && (r.errorMessage == "" <==> forall i :: 0 <= i < |images| ==> ref[i].ok)
            && (0 < r.processedPages < |images| <==>
                  r.errorMessage == PartialMessage(r.processedPages, |images|))
  {
    CompletedIsAssembled(e, tool, images, pageNames, language, ios, parse);
    var runs := Runs(e.settings, images, language, ios, parse);
    AssembleEntries(Initialize(e, tool).engine, runs, pageNames);
    AssembleVerdict(Initialize(e, tool).engine, runs, pageNames);
  }

  /** The overall percentage never goes back, stays in 0..100 and ends at
      100; pages are reported in order, each as one of the `n`. */
  lemma BatchProgressRises(e: Engine, tool: Toolchain, images: seq<Image>, pageNames: seq<string>,
                           language: string, ios: nat -> PageIo, parse: string -> Option<real>)
    requires Initialize(e, tool).ok && |images| > 0
    ensures var evs := PerformBatch(e, tool, images, pageNames, language, ios, parse).events;
            && |evs| > 0
            && NonDecreasing(Overall(evs)) && Within(Overall(evs), 0, 100)
            && Overall(evs)[|evs| - 1] == 100
            && NonDecreasing(CurrentPages(evs)) && Within(CurrentPages(evs), 1, |images|)
            && (forall k :: 0 <= k < |evs| ==> evs[k].totalPages == |images|)
  {
    CompletedIsAssembled(e, tool, images, pageNames, language, ios, parse);
    AssembleProgress(Initialize(e, tool).engine, Runs(e.settings, images, language, ios, parse), pageNames);
  }

  /** In a batch that runs, `errorOccurred` is sent only by the process
      slot: none at all exactly when every page with an image ran its
      Tesseract process without a start failure or a crash, and the last
      error afterwards is the last message sent. */
  lemma BatchErrorSignals(e: Engine, tool: Toolchain, images: seq<Image>, pageNames: seq<string>,
                          language: string, ios: nat -> PageIo, parse: string -> Option<real>)
    requires Initialize(e, tool).ok && |images| > 0
    ensures var o := PerformBatch(e, tool, images, pageNames, language, ios, parse);
            && (o.errorSignals == [] <==>
                  forall i :: 0 <= i < |images| && !images[i].NullImage? ==>
                                RunFault(e.settings, language, ios(i)).None?)
            && |o.errorSignals| <= |images|
            && o.engine.lastError == LastOr(e.lastError, o.errorSignals)
  {
    CompletedIsAssembled(e, tool, images, pageNames, language, ios, parse);
    RunsFaults(e.settings, images, language, ios, parse);
  }

  /** The pages of the loop carry no process-slot message exactly when every
      page with an image ran its process without a start failure or a
      crash. */
  lemma RunsFaults(s: Settings, images: seq<Image>, language: string, ios: nat -> PageIo,
                   parse: string -> Option<real>)
    ensures var runs := Runs(s, images, language, ios, parse);
            (forall i :: 0 <= i < |runs| ==> runs[i].fault.None?) <==>
            (forall i :: 0 <= i < |images| && !images[i].NullImage? ==> RunFault(s, language, ios(i)).None?)
  {
    var runs := Runs(s, images, language, ios, parse);
    forall i | 0 <= i < |images|
      ensures runs[i].fault.None? <==> images[i].NullImage? || RunFault(s, language, ios(i)).None?
    {
      assert runs[i] == RunPage(s, images[i], i, language, ios(i), parse);
    }
  }

  /** Dividing an ordered position on the `100 * n` scale by `n` gives
      ordered percentages in 0..100, and the end of the scale gives 100. */
  lemma OverallFromKeys(evs: seq<BatchProgress>, n: nat)
    requires n > 0 && |evs| > 0
    requires Consistent(evs, n) && NonDecreasing(Keys(evs)) && Within(Keys(evs), 0, n * 100)
    requires Keys(evs)[|evs| - 1] == n * 100
    ensures NonDecreasing(Overall(evs)) && Within(Overall(evs), 0, 100)
    ensures Overall(evs)[|evs| - 1] == 100
  {
    var ks := Keys(evs);
    forall a, b | 0 <= a < b < |evs| ensures Overall(evs)[a] <= Overall(evs)[b] {
      assert ks[a] <= ks[b];
      DivMonotone(ks[a], ks[b], n);
    }
    forall a | 0 <= a < |evs| ensures 0 <= Overall(evs)[a] <= 100 {
      DivAtMost(ks[a], n, 100);
    }
    MulDivCancel(100, n);
  }
}
