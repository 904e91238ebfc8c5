/** The logic in `MainWindow` that is not widget plumbing: the two language
    tables and their lookups, the page index that the previous/next buttons
    move, which controls `updateUIState` and `updatePageNavigation` enable,
    how a finished file load is accepted, and the message of a finished
    batch. Widgets are reduced to the state they display. */
module MainWindow {
  import opened Text
  import Resize
  import FileProcessor
  import OcrEngine
  import BatchOcr

  // ----- Languages ----------------------------------------------------------

  /** `s_languageCodeMap`: combo-box label to Tesseract language code. */
  const LanguageCodes: map<string, string> := map[
    "中英混合" := "chi_sim+eng",
    "简体中文" := "chi_sim",
    "简体中文(竖排)" := "chi_sim_vert",
    "繁体中文" := "chi_tra",
    "繁体中文(竖排)" := "chi_tra_vert",
    "英语" := "eng"
  ]

  /** `s_languageNameMap`: language code to combo-box label. */
  const LanguageNames: map<string, string> := map[
    "chi_sim+eng" := "中英混合",
    "chi_sim" := "简体中文",
    "chi_sim_vert" := "简体中文(竖排)",
    "chi_tra" := "繁体中文",
    "chi_tra_vert" := "繁体中文(竖排)",
    "eng" := "英语"
  ]

  /** The label of the default language. */
  const DefaultLabel: string := "中英混合"

  /** `getCurrentLanguageCode` for the label the combo box shows: its code,
      or mixed Chinese and English for a label the table does not know. */
  function CurrentLanguageCode(name: string): (code: string)
    ensures code in LanguageNames
    ensures name in LanguageCodes ==> code == LanguageCodes[name]
    ensures name !in LanguageCodes ==> code == OcrEngine.DefaultLanguage
  {
    if name in LanguageCodes then LanguageCodes[name] else OcrEngine.DefaultLanguage
  }

  /** `getLanguageDisplayName`: the label of a known code, or the code
      itself. */
  function LanguageDisplayName(code: string): (name: string)
    ensures code in LanguageNames ==> name in LanguageCodes && LanguageCodes[name] == code
    ensures code !in LanguageNames ==> name == code
  {
    if code in LanguageNames then LanguageNames[code] else code
  }

  /** The name table maps every code back to its label. */
  lemma CodesInverse()
    ensures forall l :: l in LanguageCodes ==> LanguageCodes[l] in LanguageNames && LanguageNames[LanguageCodes[l]] == l
  {
  }

  /** The code table maps every label back to its code. */
  lemma NamesInverse()
    ensures forall c :: c in LanguageNames ==> LanguageNames[c] in LanguageCodes && LanguageCodes[LanguageNames[c]] == c
  {
  }

  /** Looking up a label's code and then the code's label gives the label
      back; an unknown label comes back as the default language's label. */
  lemma DisplayNameOfCode(name: string)
    ensures name in LanguageCodes ==> LanguageDisplayName(CurrentLanguageCode(name)) == name
    ensures name !in LanguageCodes ==> LanguageDisplayName(CurrentLanguageCode(name)) == DefaultLabel
  {
    CodesInverse();
  }

  /** The other direction: a code's label leads back to the code, and a
      string that is neither a known code nor a known label leads to the
      default code. */
  lemma CodeOfDisplayName(code: string)
    ensures code in LanguageNames ==> CurrentLanguageCode(LanguageDisplayName(code)) == code
    ensures code !in LanguageNames && code !in LanguageCodes
            ==> CurrentLanguageCode(LanguageDisplayName(code)) == OcrEngine.DefaultLanguage
  {
    NamesInverse();
  }

  // ----- Window state -------------------------------------------------------

  /** The state of the controls the window enables, shows or labels. */
  datatype Controls = Controls(startOcr: bool, saveAction: bool, copyResult: bool, saveResult: bool,
                               clearResult: bool, navVisible: bool, prevEnabled: bool,
                               nextEnabled: bool, pageInfo: string)

  /** The window's fields: the loaded pages and their names, the page shown,
      whether a file is loaded and whether work is running, the text in the
      result area, the progress shown and the last status-bar message, and
      the controls. */
  datatype Window = Window(images: seq<Resize.Image>, names: seq<string>, index: nat, hasFile: bool,
                           processing: bool, result: string, progressText: string, status: string,
                           controls: Controls)

  /** `QString("第 %1 页 / 共 %2 页")` for 1-based page `k` of `n`. */
  function PageInfo(k: nat, n: nat): string
  {
    "第 " + NatToString(k) + " 页 / 共 " + NatToString(n) + " 页"
  }

  /** The page index points at a loaded page, or is 0 when none is loaded. */
  predicate InRange(w: Window)
  {
    if |w.images| == 0 then w.index == 0 else w.index < |w.images|
  }

  /** What the navigation controls show about page `index` of `n`. */
  predicate NavigationShows(c: Controls, index: nat, n: nat)
  {
    && (c.prevEnabled <==> index > 0)
    && (c.nextEnabled <==> index + 1 < n)
    && c.pageInfo == PageInfo(index + 1, n)
  }

  /** The controls agree with the state: start needs a file and no running
      work, the result buttons need a result, navigation is shown only for
      several pages, and once pages are loaded the navigation reflects the
      page index. */
  predicate Coherent(w: Window)
  {
    && (w.controls.startOcr <==> w.hasFile && !w.processing)
    && (w.controls.saveAction <==> w.result != "")
    && (w.controls.copyResult <==> w.result != "")
    && (w.controls.saveResult <==> w.result != "")
    && (w.controls.clearResult <==> w.result != "")
    && (w.controls.navVisible <==> |w.images| > 1)
    && (|w.images| > 0 ==> NavigationShows(w.controls, w.index, |w.images|))
  }

  /** `updateUIState(hasFile)`: record whether a file is loaded and reset the
      controls from the state; the navigation buttons are only relabelled
      when there are several pages. */
  function UpdateUiState(w: Window, hasFile: bool): (v: Window)
    ensures v == w.(hasFile := hasFile, controls := v.controls)
    ensures v.controls.startOcr <==> hasFile && !w.processing
    ensures v.controls.saveAction <==> w.result != ""
    ensures v.controls.copyResult <==> w.result != ""
    ensures v.controls.saveResult <==> w.result != ""
    ensures v.controls.clearResult <==> w.result != ""
    ensures v.controls.navVisible <==> |w.images| > 1
    ensures |w.images| > 1 ==> NavigationShows(v.controls, w.index, |w.images|)
    ensures |w.images| <= 1 ==> v.controls.(startOcr := false, saveAction := false, copyResult := false,
                                            saveResult := false, clearResult := false, navVisible := false)
                                == w.controls.(startOcr := false, saveAction := false, copyResult := false,
                                               saveResult := false, clearResult := false, navVisible := false)
    ensures Coherent(w) ==> Coherent(v)
  {
    var hasResult := w.result != "";
    var multiple := |w.images| > 1;
    var c := w.controls.(startOcr := hasFile && !w.processing, saveAction := hasResult, copyResult := hasResult,
                         saveResult := hasResult, clearResult := hasResult, navVisible := multiple);
    var c' := if multiple then c.(prevEnabled := w.index > 0, nextEnabled := w.index < |w.images| - 1,
                                  pageInfo := PageInfo(w.index + 1, |w.images|))
              else c;
    w.(hasFile := hasFile, controls := c')
  }

  /** `updatePageNavigation`: with pages loaded, relabel the navigation from
      the page index; otherwise leave everything as it is. */
  function UpdatePageNavigation(w: Window): (v: Window)
    ensures v == w.(controls := v.controls)
    ensures |w.images| == 0 ==> v == w
    ensures |w.images| > 0 ==> NavigationShows(v.controls, w.index, |w.images|)
    ensures v.controls.(prevEnabled := false, nextEnabled := false, pageInfo := "")
            == w.controls.(prevEnabled := false, nextEnabled := false, pageInfo := "")
  {
    if |w.images| == 0 then w
    else
      w.(controls := w.controls.(prevEnabled := w.index > 0, nextEnabled := w.index < |w.images| - 1,
                                 pageInfo := PageInfo(w.index + 1, |w.images|)))
  }

  /** `showCurrentPage`: for an index on a loaded page, preview it (the
      preview itself is widget work) and relabel the navigation. */
  function ShowCurrentPage(w: Window): (v: Window)
    ensures w.index < |w.images| ==> v == UpdatePageNavigation(w)
    ensures w.index >= |w.images| ==> v == w
  {
    if w.index < |w.images| then UpdatePageNavigation(w) else w
  }

  /** Navigating re-derives the navigation controls from the new index and
      leaves the rest of a coherent window coherent. */
  lemma RelabelCoherent(w: Window)
    requires |w.images| > 0
    requires Coherent(w.(index := 0))
    ensures Coherent(UpdatePageNavigation(w))
  {
  }

  // ----- Page navigation ----------------------------------------------------

  /** `onPrevPageClicked`: step back one page unless on the first. */
  function PrevPage(w: Window): (v: Window)
    ensures v.images == w.images && v.names == w.names && v.result == w.result && v.hasFile == w.hasFile
    ensures w.index > 0 <==> v.index + 1 == w.index
    ensures w.index == 0 ==> v == w
    ensures InRange(w) ==> InRange(v)
    ensures Coherent(w) ==> Coherent(v)
  {
    if w.index > 0 then
      var moved := w.(index := w.index - 1);
      UpdatePageNavigation(ShowCurrentPage(moved))
    else w
  }

  /** `onNextPageClicked`: step forward one page unless on the last. */
  function NextPage(w: Window): (v: Window)
    ensures v.images == w.images && v.names == w.names && v.result == w.result && v.hasFile == w.hasFile
    ensures w.index + 1 < |w.images| <==> v.index == w.index + 1
    ensures w.index + 1 >= |w.images| ==> v == w
    ensures InRange(w) ==> InRange(v)
    ensures Coherent(w) ==> Coherent(v)
  {
    if w.index < |w.images| - 1 then
      var moved := w.(index := w.index + 1);
      UpdatePageNavigation(ShowCurrentPage(moved))
    else w
  }

  /** Previous then next, from any page but the first of a coherent window,
      restores the window exactly. */
  lemma NextUndoesPrev(w: Window)
    requires InRange(w) && Coherent(w) && w.index > 0
    ensures NextPage(PrevPage(w)) == w
  {
  }

  /** Next then previous, from any page but the last, restores it too. */
  lemma PrevUndoesNext(w: Window)
    requires Coherent(w) && w.index + 1 < |w.images|
    ensures PrevPage(NextPage(w)) == w
  {
  }

  datatype Click = Prev | Next

  /** The window after a run of navigation clicks. */
  function Navigate(w: Window, clicks: seq<Click>): (v: Window)
    ensures v.images == w.images && v.names == w.names && v.result == w.result
    decreases |clicks|
  {
    if |clicks| == 0 then w
    else
      var step := if clicks[0].Prev? then PrevPage(w) else NextPage(w);
      Navigate(step, clicks[1..])
  }

  /** No run of clicks leaves the loaded pages or unsettles the controls. */
  lemma {:induction false} NavigateKeepsInvariant(w: Window, clicks: seq<Click>)
    requires InRange(w) && Coherent(w)
    ensures InRange(Navigate(w, clicks)) && Coherent(Navigate(w, clicks))
    decreases |clicks|
  {
    if |clicks| > 0 {
      var step := if clicks[0].Prev? then PrevPage(w) else NextPage(w);
      NavigateKeepsInvariant(step, clicks[1..]);
    }
  }

  /** Repeated clicks on next stop at the last page: `k` of them from page
      `i` show page `min(i + k, n - 1)`. */
  lemma {:induction false} NextClicksStopAtLast(w: Window, k: nat)
    requires InRange(w) && |w.images| > 0
    ensures Navigate(w, seq(k, _ => Next)).index
            == if w.index + k < |w.images| then w.index + k else |w.images| - 1
    decreases k
  {
    if k > 0 {
      var clicks := seq(k, _ => Next);
      assert clicks[0] == Next && clicks[1..] == seq(k - 1, _ => Next);
      var step := NextPage(w);
      assert Navigate(w, clicks) == Navigate(step, clicks[1..]);
      assert step.images == w.images && InRange(step);
      NextClicksStopAtLast(step, k - 1);
    }
  }

  /** Repeated clicks on previous stop at the first page. */
  lemma {:induction false} PrevClicksStopAtFirst(w: Window, k: nat)
    ensures Navigate(w, seq(k, _ => Prev)).index == if k <= w.index then w.index - k else 0
    decreases k
  {
    if k > 0 {
      var clicks := seq(k, _ => Prev);
      assert clicks[0] == Prev && clicks[1..] == seq(k - 1, _ => Prev);
      var step := PrevPage(w);
      assert Navigate(w, clicks) == Navigate(step, clicks[1..]);
      PrevClicksStopAtFirst(step, k - 1);
    }
  }

  // ----- Loading a file -----------------------------------------------------

  /** The status bar's text before any message. */
  const ReadyStatus: string := "准备就绪"

  /** The progress text `onOCRError` shows. */
  const OcrFailed: string := "OCR识别失败"

  /** `onOCRError`: stop processing, report the engine's message in the
      status bar and reset the controls for the file already loaded. */
  function OnOcrError(w: Window, message: string): (v: Window)
    ensures v.images == w.images && v.names == w.names && v.index == w.index && v.hasFile == w.hasFile
    ensures v.result == w.result && !v.processing
    ensures v.progressText == OcrFailed && v.status == "OCR错误: " + message
    ensures Coherent(w.(processing := false)) ==> Coherent(v)
    ensures v.controls.startOcr <==> w.hasFile
  {
    UpdateUiState(w.(processing := false, progressText := OcrFailed, status := "OCR错误: " + message), w.hasFile)
  }

  /** The window after construction: nothing loaded, nothing running, the
      controls reset by `updateUIState(false)` from whatever state the form
      designer left them in. The engine is initialised while the window is
      built, after its `errorOccurred` is connected to `onOCRError`, so a
      failed initialisation leaves its message in the status bar; otherwise
      the status bar still reads "准备就绪". */
  function Constructed(designed: Controls, e: OcrEngine.Engine, tool: OcrEngine.Toolchain): (w: Window)
    ensures w.images == [] && w.index == 0 && !w.hasFile && !w.processing && w.result == ""
    ensures OcrEngine.Initialize(e, tool).ok ==> w.status == ReadyStatus
    ensures !OcrEngine.Initialize(e, tool).ok ==>
              w.status == "OCR错误: " + OcrEngine.Initialize(e, tool).engine.lastError && w.progressText == OcrFailed
    ensures InRange(w) && Coherent(w)
  {
    var built := Window([], [], 0, false, false, "", "", ReadyStatus, designed);
    var init := OcrEngine.Initialize(e, tool);
    var initialised := if init.errorSignal.Some? then OnOcrError(built, init.errorSignal.value) else built;
    UpdateUiState(initialised, false)
  }

  /** The new window's status bar reads "准备就绪" exactly when the engine
      initialised. */
  lemma ReadyExactlyWhenInitialised(designed: Controls, e: OcrEngine.Engine, tool: OcrEngine.Toolchain)
    ensures Constructed(designed, e, tool).status == ReadyStatus <==> OcrEngine.Initialize(e, tool).ok
  {
    if !OcrEngine.Initialize(e, tool).ok {
      var message := OcrEngine.Initialize(e, tool).engine.lastError;
      assert ("OCR错误: " + message)[0] != ReadyStatus[0];
    }
  }

  /** `QString::arg` of a signed count. */
  function IntToString(n: int): string
  {
    if n >= 0 then NatToString(n) else "-" + NatToString(-n)
  }

  /** `QString("成功加载 %1 个页面")`. */
  function LoadedMessage(pageCount: int): string
  {
    "成功加载 " + IntToString(pageCount) + " 个页面"
  }

  const LoadFailed: string := "文件加载失败"

  /** `onFileProcessCompleted`: a successful result with at least one image
      replaces the pages and their names and shows the first page; any other
      result leaves the pages alone and marks the window as having no file. */
  function OnFileProcessCompleted(w: Window, r: FileProcessor.ProcessResult): (v: Window)
    ensures !v.processing && v.result == w.result
    ensures r.success && |r.images| > 0
            ==> && v.images == r.images && v.names == r.pageNames && v.index == 0 && v.hasFile
                && v.progressText == LoadedMessage(r.pageCount) && v.status == v.progressText
                && Coherent(v)
    ensures !(r.success && |r.images| > 0)
            ==> && v.images == w.images && v.names == w.names && v.index == w.index && !v.hasFile
                && v.progressText == LoadFailed && v.status == "错误: " + r.errorMessage
                && (Coherent(w) ==> Coherent(v))
    ensures InRange(w) ==> InRange(v)
  {
    var idle := w.(processing := false);
    if r.success && |r.images| > 0 then
      var loaded := idle.(images := r.images, names := r.pageNames, index := 0);
      var shown := UpdateUiState(ShowCurrentPage(loaded), true);
      var message := LoadedMessage(r.pageCount);
      shown.(progressText := message, status := message)
    else
      UpdateUiState(idle, false).(progressText := LoadFailed, status := "错误: " + r.errorMessage)
  }

  /** For a successful load the handler runs twice, once from the
      `processingCompleted` signal (sent only on success) and once from the
      timer that called `processFile`; the second run changes nothing. A
      failed load runs it only once, from the timer. */
  lemma FileProcessCompletedTwice(w: Window, r: FileProcessor.ProcessResult)
    ensures OnFileProcessCompleted(OnFileProcessCompleted(w, r), r) == OnFileProcessCompleted(w, r)
  {
  }

  /** What `processFile` hands back is always accepted exactly when it
      succeeded, and then each loaded page has its name. */
  lemma AcceptsWellFormed(w: Window, r: FileProcessor.ProcessResult)
    requires r.WellFormed()
    ensures OnFileProcessCompleted(w, r).hasFile <==> r.success
    ensures r.success ==> |OnFileProcessCompleted(w, r).names| == |OnFileProcessCompleted(w, r).images| > 0
  {
  }

  // ----- Finishing a batch --------------------------------------------------

  const FullHead: string := "批量OCR识别完成！成功处理 "
  const PartHead: string := "批量OCR识别部分完成：成功处理 "
  const PageUnit: string := " 页"
  const BatchFailed: string := "批量OCR识别失败"

  /** The message of a successful batch: the page count alone when every page
      was processed, else processed over total. */
  function CompletionMessage(processed: nat, total: nat): string
  {
    if processed == total then FullHead + NatToString(processed) + PageUnit
    else PartHead + NatToString(processed) + "/" + NatToString(total) + PageUnit
  }

  /** The character after the common head tells the two forms apart. */
  lemma CompletionForm(processed: nat, total: nat)
    ensures CompletionMessage(processed, total)[7] == if processed == total then '完' else '部'
  {
  }

  /** The full-success message names its count unambiguously. */
  lemma FullMessageDetermines(k1: nat, k2: nat)
    requires CompletionMessage(k1, k1) == CompletionMessage(k2, k2)
    ensures k1 == k2
  {
    var m := CompletionMessage(k1, k1);
    assert m == FullHead + (NatToString(k1) + PageUnit);
    assert m == FullHead + (NatToString(k2) + PageUnit);
    BatchOcr.CancelPrefix(FullHead, NatToString(k1) + PageUnit, NatToString(k2) + PageUnit);
    assert PageUnit[0] == ' ';
    DigitRunUnique(NatToString(k1), PageUnit, NatToString(k2), PageUnit);
    NatToStringInjective(k1, k2);
  }

  /** The partial message names both counts unambiguously. */
  lemma PartMessageDetermines(k1: nat, n1: nat, k2: nat, n2: nat)
    requires k1 != n1 && k2 != n2
    requires CompletionMessage(k1, n1) == CompletionMessage(k2, n2)
    ensures k1 == k2 && n1 == n2
  {
    var m := CompletionMessage(k1, n1);
    var rest1, rest2 := "/" + (NatToString(n1) + PageUnit), "/" + (NatToString(n2) + PageUnit);
    assert m == PartHead + (NatToString(k1) + rest1);
    assert m == PartHead + (NatToString(k2) + rest2);
    BatchOcr.CancelPrefix(PartHead, NatToString(k1) + rest1, NatToString(k2) + rest2);
    assert rest1[0] == '/' && rest2[0] == '/';
    DigitRunUnique(NatToString(k1), rest1, NatToString(k2), rest2);
    NatToStringInjective(k1, k2);
    BatchOcr.CancelPrefix("/", NatToString(n1) + PageUnit, NatToString(n2) + PageUnit);
    assert PageUnit[0] == ' ';
    DigitRunUnique(NatToString(n1), PageUnit, NatToString(n2), PageUnit);
    NatToStringInjective(n1, n2);
  }

  /** A completion message is the full-success form exactly when every page
      was processed, and it tells the counts apart: equal messages have the
      same processed count, and partial ones the same total. */
  lemma CompletionMessageDetermines(k1: nat, n1: nat, k2: nat, n2: nat)
    requires CompletionMessage(k1, n1) == CompletionMessage(k2, n2)
    ensures (k1 == n1) == (k2 == n2)
    ensures k1 == k2
    ensures k1 != n1 ==> n1 == n2
  {
    CompletionForm(k1, n1);
    CompletionForm(k2, n2);
    if k1 == n1 {
      FullMessageDetermines(k1, k2);
    } else {
      PartMessageDetermines(k1, n1, k2, n2);
    }
  }

  /** `onBatchOCRCompleted`: a successful batch puts the combined text in the
      result area and reports the counts; a failed one keeps the result and
      reports the error. Either way the controls are reset. */
  function OnBatchOcrCompleted(w: Window, r: OcrEngine.BatchResult): (v: Window)
    ensures v.images == w.images && v.names == w.names && v.index == w.index && v.hasFile == w.hasFile
    ensures !v.processing
    ensures r.success ==> v.result == r.combinedText && v.progressText == v.status
                          && v.progressText == CompletionMessage(r.processedPages, r.totalPages)
    ensures !r.success ==> v.result == w.result && v.progressText == BatchFailed
                           && v.status == "批量OCR错误: " + r.errorMessage
    ensures v.controls.copyResult <==> v.result != ""
    ensures Coherent(w) ==> Coherent(v)
  {
    var idle := w.(processing := false);
    var shown := if r.success then
                   var message := CompletionMessage(r.processedPages, r.totalPages);
                   idle.(result := r.combinedText, progressText := message, status := message)
                 else idle.(progressText := BatchFailed, status := "批量OCR错误: " + r.errorMessage);
    UpdateUiState(shown, w.hasFile)
  }

  /** For a batch whose page loop ran the handler runs twice, once from the
      `batchOcrCompleted` signal and once from the timer that called
      `performBatchOCR`; the second run changes nothing. Any other batch
      runs it only once, from the timer. */
  lemma BatchOcrCompletedTwice(w: Window, r: OcrEngine.BatchResult)
    ensures OnBatchOcrCompleted(OnBatchOcrCompleted(w, r), r) == OnBatchOcrCompleted(w, r)
  {
  }

  /** For a result shaped as the engine builds it (success means some page
      was processed, the error message names the processed count, which
      never exceeds the total), the window calls
      the batch complete exactly when the engine reported no error. */
  lemma CompletionAgreesWithEngine(w: Window, r: OcrEngine.BatchResult)
    requires r.success && 0 < r.processedPages <= r.totalPages
    requires r.errorMessage == BatchOcr.BatchMessage(r.processedPages, r.totalPages)
    ensures OnBatchOcrCompleted(w, r).progressText == FullHead + NatToString(r.totalPages) + PageUnit
            <==> r.errorMessage == ""
  {
    CompletionForm(r.processedPages, r.totalPages);
    CompletionForm(r.totalPages, r.totalPages);
  }
}
