# Convenient-OCR pipeline core, modelled in Dafny

The project models the deterministic decisions of a Qt desktop OCR tool. The tool turns an
image or a PDF into page images, recognises each page with the external `tesseract` program,
and shows the combined text. It covers:

- **File classification** (`FileProcessor::getFileType`, `isFileSupported`,
  `getSupportedExtensions`, `getFileFilter`): the lower-cased suffix after the last `.`
  picks one of nine `FileType` variants. The dialog filter is four `;;`-separated groups.
- **Size normalisation** (`FileProcessor::resizeImage`): the width limit first, then the
  height limit, with `QSize::scale(KeepAspectRatio)` written out as truncating integer
  arithmetic. The resampled pixels come from an oracle.
- **PDF page files** (`convertPDFToImagesWithPoppler` post-processing and `processPDFFile`):
  - the `page-*.png` / `*.png` listing;
  - numeric page order through the `page-(\d+)\.png` key;
  - dropping missing and empty files;
  - temp-file bookkeeping;
  - assembling images and "页面 i" names, with the progress trace.
- **File dispatch** (`processFile`, `processImageFile`, `cleanupTempFiles`).
- **Tesseract TSV confidence** (`parseConfidenceFromTSV`): the mean of the `conf` column
  over qualifying word rows, divided by 100, or exactly 0.8.
- **The OCR engine** (`TesseractOCREngine`):
  - `initialize`;
  - the clamped mode setters;
  - the argument list;
  - one recognition (`performOCR` and its batch twin), with its early exits and temp-file
    paths;
  - the `onTesseractError` slot, which turns a process start failure or crash into the last
    error and an `errorOccurred` signal.
- **Batch aggregation** (`performBatchOCR`):
  - page-name padding;
  - per-page entries;
  - the `processedPages` / `success` / `errorMessage` policy;
  - `combinedText`;
  - the `batchProgressUpdated` trace.
- **Main window logic** (`MainWindow`):
  - the two language tables and their lookups;
  - the page-index state machine behind the previous/next buttons;
  - the enablement rules of `updateUIState` and `updatePageNavigation`;
  - the accept rule for a finished file load;
  - the batch completion message.

The outside world is passed in as parameters:

- the file system (`Environment`, `PageIo`, `FileStat`);
- the decoder and the scaler (`load`, `read`, `scale`);
- the external processes (`Process.Run`: failed to start, timed out, or finished after some
  polling rounds with an exit);
- the clock;
- `QString::toFloat` (`parse`).

Progress signals are returned as sequences instead of being emitted.

Modules:

| file | module | part of the program |
|---|---|---|
| text.dfy | `Text` | `QString` helpers used throughout: join/split, trim, ASCII lower-casing, decimal rendering |
| paths.dfy | `Paths` | `QFileInfo::fileName/suffix/baseName` on `/`-separated paths |
| process.dfy | `Process`, `Wrappers` | outcomes of an external program run; `Option` |
| sorting.dfy | `Sorting` | sorting by an integer key, stated as sorted permutation |
| arithmetic.dfy | `Arithmetic` | small facts about integer division used by the progress proofs |
| file_types.dfy | `FileTypes` | file classification and the dialog filter string |
| resize.dfy | `Resize` | `resizeImage` size arithmetic |
| pdf_pages.dfy | `PdfPages` | page-file listing, ordering, survivors, the rasterizer's progress |
| file_processor.dfy | `FileProcessor` | `processFile`, `processImageFile`, `processPDFFile`, `cleanupTempFiles` |
| confidence.dfy | `Confidence` | `parseConfidenceFromTSV` |
| ocr_engine.dfy | `OcrEngine` | engine state, `initialize`, mode setters, one recognition |
| batch_ocr.dfy | `BatchOcr` | `performBatchOCR` |
| main_window.dfy | `MainWindow` | language tables, page navigation, enablement, load and batch completion |

## Model

| member | source | states |
|---|---|---|
| FileTypes.ClassifyMatchesTable | fileprocessor.cpp:61-79 | every known type is produced by exactly the extensions listed for it: "tif" and "tiff" both give TIFF, "jpg" and "jpeg" give different variants |
| FileTypes.KnownIffSupported | fileprocessor.cpp:14-20 | an extension classifies as known exactly when it is one of the nine supported extensions |
| FileTypes.SupportedExtensions | fileprocessor.cpp:85-90 | the supported list is the eight image extensions in order, followed by "pdf" |
| FileTypes.SupportedIffListed | fileprocessor.cpp:51-79 | a path is supported exactly when its lower-cased suffix is in the supported list |
| FileTypes.TypeDependsOnExtensionOnly | fileprocessor.cpp:61-64 | the type of `dir/base.ext` is the classification of the lower-cased `ext`, whatever the directory and base name |
| FileTypes.TypeIgnoresDirectory | fileprocessor.cpp:61-64 | prefixing a directory never changes the type |
| FileTypes.TypeIgnoresCase | fileprocessor.cpp:64 | two spellings of an extension equal after ASCII lower-casing ("PDF", "pdf") give `dir/base.ext` the same file type |
| FileTypes.SpacedIsJoinPlusSpace | fileprocessor.cpp:99-101 | the text the loop accumulates is the single-space join of the `*.ext` patterns plus one trailing space |
| FileTypes.BuildGroup | fileprocessor.cpp:98-103 | appending `*.ext ` per extension, chopping one character and closing gives `title (p1 p2 ...)`, with no space before `)`; with no extensions the chop eats the `(` and leaves `title )` |
| FileTypes.FileFilter | fileprocessor.cpp:96-121 | the filter is the all-supported, image and document groups, then "所有文件 (*.*)", joined by ";;" |
| Paths.AfterLast | fileprocessor.cpp:63-64 | the suffix is the longest tail without the separator, and the separator precedes it when it is shorter than the input |
| Paths.SuffixOfComposedPath | fileprocessor.cpp:63-64 | the suffix of `dir/base.ext` is `ext` |
| Paths.SuffixIgnoresDirectory | fileprocessor.cpp:63-64 | a directory prefix never changes the suffix |
| Resize.FitWidth | fileprocessor.cpp:322-324 | scaling to the width limit never grows either side, meets the limit, and is the identity when no width limit applies |
| Resize.FitHeight | fileprocessor.cpp:327-329 | the same for the height limit |
| Resize.TargetSize | fileprocessor.cpp:319-332 | the target never exceeds the original or a positive limit, and equals the original exactly when the image already fits |
| Resize.ResizeImage | fileprocessor.cpp:308-337 | a null image, no limits, or an image that fits come back unchanged; a non-null image that breaks a positive limit is always the scaler's output at the shrunken target size |
| Resize.ResizedFits | fileprocessor.cpp:308-337 | with a scaler that stays within the size it is asked for, the result fits both positive limits and is never larger than the original in either dimension |
| Resize.GuardIsRedundant | fileprocessor.cpp:207-209 | the callers' "limit set and exceeded" guard before `resizeImage` never changes the outcome |
| Resize.NoLimitsIsIdentity | fileprocessor.h:83-107 | with the default limits 0 and 0 the image is returned as is |
| PdfPages.PageKeyOfPageFileName | fileprocessor.cpp:428-441 | the comparator key of `page-N.png` is N for every N up to the largest `int` |
| PdfPages.FirstMatch | fileprocessor.cpp:430-432 | the regular expression's match is the first position where `page-`, digits and `.png` follow, or none |
| PdfPages.Listed | fileprocessor.cpp:412-423 | the listing holds exactly the `page-*.png` names when there are any, otherwise exactly the `*.png` names |
| PdfPages.SortByPage | fileprocessor.cpp:428-443 | the sorted list is a permutation of the listing, non-decreasing by page key |
| PdfPages.SortRecoversPageOrder | fileprocessor.cpp:428-443 | any listing of `page-N.png` names with distinct N sorts into increasing N, whatever the listing order, so page-10 follows page-3 |
| PdfPages.Survivors | fileprocessor.cpp:445-457 | a listed name is kept exactly when its file exists with a positive size |
| PdfPages.SurvivorsKeepOrder | fileprocessor.cpp:445-457 | filtering keeps the sorted order |
| PdfPages.KeptPages | fileprocessor.cpp:412-457 | the kept names are sorted by page, come from the listing, and are exactly the listed names whose files survive |
| PdfPages.RunProgress | fileprocessor.cpp:361-379 | the rasterizer's progress starts 15, 20, stays within 15..35 and never decreases |
| PdfPages.ConvertPdf | fileprocessor.cpp:345-461 | a failed start or unclean exit yields no files; otherwise the surviving page files are returned and recorded as temp files; the progress rises within 15..35 and ends at 35 on success |
| FileProcessor.FailureIsWellFormed | fileprocessor.h:38-46 | a failure result carries no image, count 0, no names and is not successful |
| FileProcessor.ProcessImage | fileprocessor.cpp:182-222 | an unreadable file fails with the reader's reason; a null image fails as corrupt; otherwise exactly one resized image named after the base name; every progress signal is for page 1 of 1, lies in 0..100, never decreases, and a success ends at 100 |
| FileProcessor.LoadedIndices | fileprocessor.cpp:268-281 | the loaded page positions are exactly the files whose image decodes, in increasing order |
| FileProcessor.LoadPages | fileprocessor.cpp:268-281 | images and names grow in lockstep: one resized image and one name "页面 i+1" per decoded file i, so a skipped page leaves a gap in the numbering |
| FileProcessor.PageEventsRise | fileprocessor.cpp:283 | the per-page percentages `50 + 50(i+1)/n` never decrease, stay within 50..100 and end at 100 |
| FileProcessor.PdfEventsRise | fileprocessor.cpp:244-283 | the PDF progress trace 5, 10, rasterizer, 40, pages never decreases, stays in 0..100 and ends at 100 |
| FileProcessor.LoadConverted | fileprocessor.cpp:265-296 | once page files exist: the decoded pages in order, success exactly when one decoded, otherwise "无法从PDF文件中提取图像"; every page file, temp file and the output directory removed; the signals are exactly 5, 10, the rasterizer's values, (40, 0, n) announcing the n page files, then one per page file |
| FileProcessor.ProcessPdf | fileprocessor.cpp:231-299 | no rasterizer: fails, nothing removed, no signal; no page file: fails with "无法转换PDF文件", the output directory is removed and the signals are 5, 10 and the rasterizer's values; otherwise the outcome of the page loading above, signals included |
| FileProcessor.CleanupTempFiles | fileprocessor.cpp:491-502 | the given paths are removed first, then every recorded temp file, and the record is left empty |
| FileProcessor.CleanupIdempotent | fileprocessor.cpp:491-502 | cleaning up again leaves the record empty and removes nothing new |
| FileProcessor.ProcessFile | fileprocessor.cpp:130-173 | a missing path fails with "文件不存在: "+path; an unknown type fails with "不支持的文件格式: "+suffix; images and PDFs dispatch after the 10% signal; for a PDF with the rasterizer available the second signal (5, 0, 0) falls below that 10%, so the trace is not monotone; every result is well-formed, success implies a supported existing file, and every percentage lies in 0..100 |
| FileProcessor.PdfProgressRestarts | fileprocessor.h:119-125 | with the rasterizer available, every outcome of the PDF path starts with the signal (5, 0, 0) |
| Confidence.QualifiesAsWritten | tesseractocrengine.cpp:659-667 | a row counts exactly when it has at least 11 columns, column 10 parses to a non-negative number, there is a column 11 and it is not blank after trimming |
| Confidence.ElevenColumnsNeverCount | tesseractocrengine.cpp:662-667 | a row with exactly 11 columns never counts, whatever its confidence |
| Confidence.Accumulate | tesseractocrengine.cpp:654-672 | the loop's total and count are the sum and the number of the qualifying rows' confidences |
| Confidence.ParseConfidence | tesseractocrengine.cpp:638-682 | an unreadable file or one with at most one non-empty line gives 0.8; otherwise the mean of the qualifying confidences over 100, or 0.8 when none qualifies |
| Confidence.ConfidenceInUnitRange | ocrengine.h:34 | when every confidence the file contributes to the mean is at most 100, the result lies in [0, 1] |
| Confidence.ConfidenceIsParsed | tesseractocrengine.cpp:664-669 | every averaged confidence is the parse of some data row's column 10 |
| Confidence.NoWordsGivesDefault | tesseractocrengine.cpp:676-681 | when no data row qualifies the result is exactly 0.8 |
| OcrEngine.Bound | tesseractocrengine.cpp:461 | `qBound(0, mode, 13)`: in range it is the mode, below it 0, above it 13 |
| OcrEngine.BoundMonotone | tesseractocrengine.cpp:461 | clamping preserves order |
| OcrEngine.SetOcrEngineMode | tesseractocrengine.cpp:459-462 | the stored mode lies in 0..13, equals an in-range request, and nothing else changes |
| OcrEngine.SetPageSegmentationMode | tesseractocrengine.cpp:468-471 | the same for the page segmentation mode |
| OcrEngine.SetModesIdempotent | tesseractocrengine.cpp:459-471 | setting a mode twice equals setting it once, and re-setting the stored in-range mode changes nothing |
| OcrEngine.Initialize | tesseractocrengine.cpp:116-140 | succeeds when already initialised or the tool is installed and reports a version; otherwise records and signals "not installed" or "no version" |
| OcrEngine.InitializeIdempotent | tesseractocrengine.cpp:116-120 | initialising again gives the same verdict and engine |
| OcrEngine.Arguments | tesseractocrengine.cpp:181-192 | image, output base, `-l` language, `--oem` mode, `--psm` mode, `txt tsv`, then `--tessdata-dir` path only when one is set |
| OcrEngine.RunTrace | tesseractocrengine.cpp:215-238 | the launch progress starts 10, 20, stays within 10..75 and never decreases |
| OcrEngine.Recognise | tesseractocrengine.cpp:166-285 | recognised exactly when the image was saved, tesseract exited cleanly and wrote text; then the text is trimmed and the confidence parsed from the TSV; progress starts at 10, rises, and ends at 100 exactly on success |
| OcrEngine.RecognizePage | tesseractocrengine.cpp:148-289 | a failed initialisation or a null image fails before anything is saved or started; after the save every failure empties the temp list, success removes the three files but keeps the image recorded; success ⇔ the progress ends at 100; `errorOccurred` carries the initialisation error, or else the process slot's message for a start failure or a crash, which also becomes the last error |
| OcrEngine.RecognizedTextAndConfidence | ocrengine.h:32-39 | a successful result carries the trimmed text and, when every confidence the TSV file contributes is at most 100, a confidence in [0, 1] |
| OcrEngine.ReadyEngineRecognises | tesseractocrengine.cpp:152-158 | an initialised engine goes straight to recognition; its last error changes only to the process slot's message, and only when the slot fires |
| OcrEngine.ProcessErrorTextInjective | tesseractocrengine.cpp:491-517 | the slot's six messages are distinct, so the message names the process error |
| Process.Notified | tesseractocrengine.cpp:216-248 | the process announces `FailedToStart` exactly for a run that never started and `Crashed` exactly for one that ended abnormally, also after the timeout's terminate; a clean run and a timeout alone announce nothing |
| OcrEngine.RunFault | tesseractocrengine.cpp:73-74 | the slot fires for a page exactly when the image was saved and the process failed to start ("无法启动Tesseract进程") or ended abnormally ("Tesseract进程崩溃"), and never otherwise |
| BatchOcr.EventsOrdered | tesseractocrengine.cpp:758-829 | page i's signals `(i*100+p)/n` carry page i+1 of n and, as p rises, rise within page i's hundred |
| BatchOcr.EntryOf | tesseractocrengine.cpp:351-358 | a successful page contributes its text and confidence; a failed one "错误: "+message and 0 |
| BatchOcr.RunPage | tesseractocrengine.cpp:329-363 | a page counts exactly when its image is non-null and recognised; a null image gives "错误: 第i+1页图像无效" with no engine call and no slot message; failures carry the error marker and confidence 0; a page with a slot message never counts |
| BatchOcr.RunPageIsPerformOcr | tesseractocrengine.cpp:692-836 | for a ready engine and a non-null image the batch page equals the single-page recognition: same entry, its progress framed by 0 and 100, same temp-file effects, same slot message and last error |
| BatchOcr.PadNames | tesseractocrengine.cpp:320-323 | the names are the given names, never truncated, padded with "页面 k" up to the page count |
| BatchOcr.PadNamesIdempotent | tesseractocrengine.cpp:320-323 | padding an already padded list changes nothing |
| BatchOcr.IncludedIndices | tesseractocrengine.cpp:373-374 | the kept pages are exactly the non-empty texts not starting with "错误:", in increasing page order |
| BatchOcr.Sections | tesseractocrengine.cpp:372-378 | one "=== name ===\ntext" section per kept page, in page order |
| BatchOcr.Successes | tesseractocrengine.cpp:351-355 | the processed count never exceeds the pages, is 0 exactly when no page succeeded and full exactly when all did |
| BatchOcr.BatchMessage | tesseractocrengine.cpp:382-388 | "所有页面处理失败" exactly when none succeeded, empty exactly when all did, the partial message exactly in between |
| BatchOcr.PartialMessageDetermines | tesseractocrengine.cpp:385-387 | the partial-failure message determines both counts |
| BatchOcr.PerformBatch | tesseractocrengine.cpp:298-393 | `totalPages` is the image count; a failed initialisation returns the engine's error and signals it once; an empty list fails with "输入图像列表为空" and signals nothing; otherwise one text and confidence per page, padded names, success ⇔ some page processed, the engine unchanged except for temp files and the last error, which is the last slot message |
| BatchOcr.BatchErrorSignals | tesseractocrengine.cpp:329-363 | a batch that runs sends `errorOccurred` at most once per page, and sends none exactly when every page with an image started its process and saw it end normally |
| BatchOcr.CompletedIsAssembled | tesseractocrengine.cpp:305-329 | once the engine is initialised and there is a page, the batch is the assembly of its per-page runs, done with the initialised engine |
| BatchOcr.AssembleEntries | tesseractocrengine.cpp:351-369 | the result's texts, confidences and processed count are those of the per-page entries, in input order |
| BatchOcr.AssembleVerdict | tesseractocrengine.cpp:366-388 | success ⇔ some page succeeded; "所有页面处理失败" ⇔ every page failed; an empty message ⇔ every page succeeded; the partial message ⇔ strictly between |
| BatchOcr.AssembleProgress | tesseractocrengine.cpp:339-362 | the assembled signals' overall progress never decreases, stays in 0..100 and ends at 100, and the current page rises within 1..n |
| BatchOcr.AssembleCombined | tesseractocrengine.cpp:366-380 | the combined text is the "\n\n" join of the sections of exactly the successful pages, and the names start with the given names |
| BatchOcr.FailuresLeftOut | tesseractocrengine.cpp:351-374 | a page's text is in the combined text exactly when the page succeeded with a non-empty text that does not start with "错误:" |
| BatchOcr.BatchVerdict | tesseractocrengine.cpp:351-388 | texts and confidences are the per-page entries in input order; processed counts the successes; success ⇔ some page succeeded; the error message follows the three-way policy |
| BatchOcr.BatchProgressRises | tesseractocrengine.cpp:339-362 | the overall progress never decreases, stays in 0..100 and ends at 100; the current page rises within 1..n; every signal carries n pages |
| BatchOcr.OverallFromKeys | tesseractocrengine.cpp:758-829 | rising keys `i*100+p` ending at `n*100` give an overall progress `key/n` that rises within 0..100 and ends at 100 |
| MainWindow.CurrentLanguageCode | mainwindow.cpp:839-843 | the code of a listed label, or "chi_sim+eng" for any other label; always a code the name table knows |
| MainWindow.LanguageDisplayName | mainwindow.cpp:850-853 | a known code's label, which maps back to that code; otherwise the code itself |
| MainWindow.DisplayNameOfCode | mainwindow.cpp:5-21 | label → code → label returns every listed label, and an unlisted label comes back as "中英混合" |
| MainWindow.CodeOfDisplayName | mainwindow.cpp:5-21 | code → label → code returns every listed code |
| MainWindow.UpdateUiState | mainwindow.cpp:185-213 | start ⇔ file ∧ not processing; each of the save action and the copy, save and clear buttons ⇔ a non-empty result; navigation visible ⇔ more than one page; with several pages, prev ⇔ index > 0 and next ⇔ index < n-1; controls that agreed with the state still agree |
| MainWindow.UpdatePageNavigation | mainwindow.cpp:811-822 | with pages loaded, prev ⇔ index > 0, next ⇔ index < n-1 and the "第 k 页 / 共 n 页" label; without pages nothing changes |
| MainWindow.PrevPage | mainwindow.cpp:374-381 | steps back exactly when not on the first page; keeps the index in range and the controls in agreement |
| MainWindow.NextPage | mainwindow.cpp:386-393 | steps forward exactly when not on the last page; keeps the index in range and the controls in agreement |
| MainWindow.NextUndoesPrev | mainwindow.cpp:374-393 | previous then next restores the window exactly, from any page but the first |
| MainWindow.PrevUndoesNext | mainwindow.cpp:374-393 | next then previous restores the window exactly, from any page but the last |
| MainWindow.NavigateKeepsInvariant | mainwindow.cpp:374-393 | no run of clicks moves the index out of the loaded pages or unsettles the controls |
| MainWindow.NextClicksStopAtLast | mainwindow.cpp:386-393 | k clicks on next from page i show page min(i+k, n-1) |
| MainWindow.PrevClicksStopAtFirst | mainwindow.cpp:374-381 | k clicks on previous from page i show page max(i-k, 0) |
| MainWindow.Constructed | mainwindow.cpp:28-85 | the new window has no pages, index 0, no file, and controls that agree with that state; the status bar reads "准备就绪" when the engine initialises, and otherwise "OCR错误: " with the initialisation error, the progress text "OCR识别失败" |
| MainWindow.ReadyExactlyWhenInitialised | mainwindow.cpp:167-178 | `errorOccurred` is connected before `initialize()` runs, so the new window's status reads "准备就绪" exactly when the engine initialised |
| MainWindow.OnOcrError | mainwindow.cpp:664-674 | processing stops, the progress text is "OCR识别失败" and the status "OCR错误: "+message; pages, file and result stay; the controls are reset for the file already loaded |
| MainWindow.OnFileProcessCompleted | mainwindow.cpp:573-599 | a successful result with images replaces pages and names, shows page 0 and marks a file loaded; any other result keeps the pages and marks no file; the index stays in range |
| MainWindow.FileProcessCompletedTwice | mainwindow.cpp:150-151 | for a successful load, where `processingCompleted` is sent (fileprocessor.cpp:168-170), the handler runs again from the timer (mainwindow.cpp:241-242); that second run leaves the window as the first left it |
| MainWindow.AcceptsWellFormed | mainwindow.cpp:579-586 | a result as `processFile` builds it is accepted exactly when it succeeded, and then every page has a name |
| MainWindow.CompletionMessageDetermines | mainwindow.cpp:718-725 | the message is the full form exactly when processed == total, and it determines the processed count (and the total in the partial form) |
| MainWindow.OnBatchOcrCompleted | mainwindow.cpp:706-739 | a successful batch shows the combined text and the completion message; a failed one keeps the result and shows the error; the pages are untouched and the controls still agree |
| MainWindow.BatchOcrCompletedTwice | mainwindow.cpp:165-166 | for a batch whose page loop ran, where `batchOcrCompleted` is sent, the handler runs again from the timer (mainwindow.cpp:340-344); that second run leaves the window as the first left it |
| MainWindow.CompletionAgreesWithEngine | mainwindow.cpp:718-725 | for a result shaped as the engine builds it, the window reports full completion exactly when the engine reported no error |
| Sorting.SortBy | fileprocessor.cpp:443 | the result is sorted by the key and is a permutation of the input |
| Sorting.SortedPermutationUnique | fileprocessor.cpp:443 | with distinct keys, only one sorted permutation exists, so an unstable sort cannot reorder it |
| Text.SplitThenJoin | tesseractocrengine.cpp:646-659 | splitting at a separator and joining with it gives the text back |
| Text.JoinThenSplit | tesseractocrengine.cpp:646-659 | joining separator-free parts and splitting gives the parts back |
| Text.TrimEmptyIff | tesseractocrengine.cpp:667 | a text trims to empty exactly when all its characters are white space |
| Text.NatToStringRoundTrip | tesseractocrengine.cpp:185-186 | reading back a rendered number gives the number |
| Text.PageLabelInjective | fileprocessor.cpp:280 | different positions get different "页面 n" names |

## Left out

- Process control is left out: starting, waiting, polling, terminate/kill and the PATH/TESSDATA_PREFIX setup of both tools. Each run is a `Process.Run` parameter, and the polling rounds are bounded by the 30 s / 500 ms and 60 s / 2 s budgets.
- Image and file I/O is left out: decoding, saving PNGs, reading text files, directory listing and removal. These are oracle parameters. File contents arrive after Qt's line-ending translation.
- Pixel resampling is left out: `QImage::scaled` is an oracle `scale`, and the model proves facts about the target size it is asked for.
- Float32 arithmetic and `QString::toFloat` are left out. Confidences are reals and `toFloat` is the `parse` parameter, so float rounding is not modelled.
- Timestamp-based temp names are left out. Paths are built from clock parameters, and the model claims nothing about their uniqueness.
- Tool-path probing in the constructors, `setPopplerPath`, `setTesseractPath`, `setTessDataPath`, `getPopplerPath` and `isPopplerAvailable` are left out. They depend on file-system existence checks, so tool availability is a parameter (`popplerAvailable`, `Toolchain`).
- `getSupportedLanguages`, `getEngineType`, `getEngineName`, `isAvailable` and `onTesseractFinished` are left out. They are constant tables, or a slot that only clears an asynchronous-mode flag the synchronous paths never set.
- `OcrEngine.RunFault`: the `onTesseractError` slot is modelled for the two errors a run can announce, a start failure and an abnormal exit. `Timedout`, `WriteError` and `ReadError` are never announced in the model: a `waitFor…` timeout only records `Timedout` without the signal, and nothing is written to or read from the process while it runs. The exit seen after the timeout's `terminate` is taken to be observed before the call returns.
- Signals are returned instead of emitted. `BatchOcr.PerformBatch` returns the `batchProgressUpdated` values and a `completed` flag. `ocrCompleted` is reported only by `OcrEngine.RecognizePage`, because the batch page does not emit it.
- `BatchOcr.Section`: renders "=== name ===\ntext" as plain concatenation. It does not model `QString::arg` re-substituting `%1`/`%2` markers that occur inside a page name.
- `Confidence.ParseConfidence`: works on the rows already cut at tabs (`Confidence.Table`). The source's `trimmed().isEmpty()` test is stated through a blank-text predicate, and `Confidence.QualifiesAsWritten` proves the two agree.
- `PdfPages.SortByPage`: `std::sort` is not stable and fixes no order among names with equal page keys, for example in the `*.png` fallback listing where every key is 0. The model sorts with one particular insertion sort, so the exact page order that `FileProcessor.LoadConverted` and `FileProcessor.ProcessPdf` state holds only for this choice whenever keys repeat. With distinct keys every sort agrees (`Sorting.SortedPermutationUnique`).
- `MainWindow` keeps only the state that widgets display. It leaves out the preview, tab switching, message boxes, the status-bar timer, the clipboard, `QSettings`, screen capture and `resizeEvent`. A handler that runs twice shows its warning box twice; only the window state is shown to be unchanged.
- screencapture.cpp, licensedialog.cpp and main.cpp are not part of this model.
- The single-page path of the main window (`onStartOCRClicked`, `onOCRCompleted`) is not modelled. Only the batch completion and file-load handlers are.
