/** Post-processing of the rasterizer's output directory in
    `convertPDFToImagesWithPoppler`: which files are listed, how they are
    put in page order, and which of them survive. */
module PdfPages {
  import opened Text
  import opened Wrappers
  import opened Process
  import opened Sorting

  // ----- Page number of a file name ---------------------------------------

  /** Length of the run of ASCII digits at the start of `s`. */
  function DigitRun(s: string): (n: nat)
    ensures n <= |s| && AllDigits(s[..n])
    ensures n < |s| ==> !IsDigit(s[n])
  {
    if |s| > 0 && IsDigit(s[0]) then
      var n := 1 + DigitRun(s[1..]);
      assert s[..n] == [s[0]] + s[1..][..n - 1];
      n
    else 0
  }

  /** The pattern `page-(\d+)\.png` matches at position `i`. `\d+` is greedy
      and the character after any shorter run is itself a digit, so a match
      at `i` exists exactly when the maximal digit run after "page-" is
      non-empty and followed by ".png". */
  predicate MatchesAt(s: string, i: nat)
  {
    && i + 5 <= |s|
    && s[i..i + 5] == "page-"
    && var d := DigitRun(s[i + 5..]);
       d > 0 && i + 5 + d + 4 <= |s| && s[i + 5 + d..i + 5 + d + 4] == ".png"
  }

  /** The first (leftmost) match position at or after `from`. */
  function FirstMatch(s: string, from: nat): (r: Option<nat>)
    ensures r.Some? ==> from <= r.value < |s| && MatchesAt(s, r.value)
    ensures r.Some? ==> forall j :: from <= j < r.value ==> !MatchesAt(s, j)
    ensures r.None? ==> forall j :: from <= j < |s| ==> !MatchesAt(s, j)
    decreases |s| - from
  {
    if from >= |s| then None
    else if MatchesAt(s, from) then Some(from)
    else FirstMatch(s, from + 1)
  }

  /** The largest value `QString::toInt` returns; anything above it fails
      and yields 0. */
  const IntMax: int := 0x7FFF_FFFF

  /** `QString::toInt` of a digit string: its value, or 0 on overflow. */
  function ToInt(digits: string): int
    requires AllDigits(digits)
  {
    var v := DigitsValue(digits);
    if v <= IntMax then v else 0
  }

  /** The maximal run of digits at the start of `s`. */
  function LeadingDigits(s: string): (d: string)
    ensures AllDigits(d) && d <= s
  {
    s[..DigitRun(s)]
  }

  /** The comparator's key: the number captured by the first match of
      `page-(\d+)\.png`, or 0 when the name does not match. */
  function PageKey(name: string): int
  {
    match FirstMatch(name, 0)
    case None => 0
    case Some(i) => ToInt(LeadingDigits(name[i + 5..]))
  }

  /** The name the rasterizer gives page `n`. */
  function PageFileName(n: nat): string
  {
    "page-" + NatToString(n) + ".png"
  }

  /** The key recovers the page number of every name the rasterizer writes
      (up to the 32-bit limit of `toInt`). */
  lemma PageKeyOfPageFileName(n: nat)
    requires n <= IntMax
    ensures PageKey(PageFileName(n)) == n
  {
    var digits := NatToString(n);
    var s := PageFileName(n);
    assert s[..5] == "page-";
    assert s[5..] == digits + ".png";
    assert DigitRun(s[5..]) == |digits| by {
      DigitRunOfDigits(digits, ".png");
    }
    assert s[5..5 + |digits|] == digits;
    assert s[5 + |digits|..5 + |digits| + 4] == ".png";
    assert MatchesAt(s, 0);
    assert LeadingDigits(s[5..]) == digits;
    NatToStringRoundTrip(n);
  }

  lemma {:induction false} DigitRunOfDigits(digits: string, rest: string)
    requires AllDigits(digits)
    requires |rest| > 0 && !IsDigit(rest[0])
    ensures DigitRun(digits + rest) == |digits|
    decreases |digits|
  {
    if |digits| == 0 {
      assert digits + rest == rest;
    } else {
      assert (digits + rest)[1..] == digits[1..] + rest;
      DigitRunOfDigits(digits[1..], rest);
    }
  }

  // ----- Listing ------------------------------------------------------------

  /** The name filter "page-*.png"; `QDir` matches filters case-insensitively. */
  predicate MatchesPageGlob(name: string)
  {
    var l := Lower(name);
    |l| >= 9 && l[..5] == "page-" && l[|l| - 4..] == ".png"
  }

  /** The fallback name filter "*.png". */
  predicate MatchesPngGlob(name: string)
  {
    var l := Lower(name);
    |l| >= 4 && l[|l| - 4..] == ".png"
  }

  function FilterPageGlob(names: seq<string>): (r: seq<string>)
    ensures multiset(r) <= multiset(names)
    ensures forall n :: n in r <==> n in names && MatchesPageGlob(n)
  {
    if |names| == 0 then []
    else
      assert names == [names[0]] + names[1..];
      (if MatchesPageGlob(names[0]) then [names[0]] else []) + FilterPageGlob(names[1..])
  }

  function FilterPngGlob(names: seq<string>): (r: seq<string>)
    ensures multiset(r) <= multiset(names)
    ensures forall n :: n in r <==> n in names && MatchesPngGlob(n)
  {
    if |names| == 0 then []
    else
      assert names == [names[0]] + names[1..];
      (if MatchesPngGlob(names[0]) then [names[0]] else []) + FilterPngGlob(names[1..])
  }

  /** The files the post-processing considers, given the directory's visible
      regular files: those matching "page-*.png", or, if none does, those
      matching "*.png". */
  function Listed(entries: seq<string>): (r: seq<string>)
    ensures multiset(r) <= multiset(entries)
    ensures (exists n :: n in entries && MatchesPageGlob(n)) ==>
              forall n :: n in r <==> n in entries && MatchesPageGlob(n)
    ensures (forall n :: n in entries ==> !MatchesPageGlob(n)) ==>
              forall n :: n in r <==> n in entries && MatchesPngGlob(n)
  {
    var pages := FilterPageGlob(entries);
    if |pages| > 0 then
      assert pages[0] in pages;
      pages
    else FilterPngGlob(entries)
  }

  // ----- Ordering by page number ------------------------------------------

  predicate SortedByKey(s: seq<string>)
  {
    SortedBy(s, PageKey)
  }

  /** `std::sort` with the page-number comparator: a permutation of the
      listed names that is non-decreasing by page number. */
  function SortByPage(s: seq<string>): (r: seq<string>)
    ensures SortedByKey(r)
    ensures multiset(r) == multiset(s)
  {
    SortBy(s, PageKey)
  }

  /** The names the rasterizer writes for the given page numbers. */
  function PageNames(pages: seq<nat>): (r: seq<string>)
    ensures |r| == |pages|
    ensures forall i :: 0 <= i < |pages| ==> r[i] == PageFileName(pages[i])
  {
    if |pages| == 0 then [] else [PageFileName(pages[0])] + PageNames(pages[1..])
  }

  /** Pages come out in numeric, not lexicographic, order: whatever order the
      directory lists the rasterizer's files in, sorting yields them by
      increasing page number (so page-10 follows page-9, not page-1). */
  lemma SortRecoversPageOrder(pages: seq<nat>, listed: seq<string>)
    requires forall i, j :: 0 <= i < j < |pages| ==> pages[i] < pages[j]
    requires forall i :: 0 <= i < |pages| ==> pages[i] <= IntMax
    requires multiset(listed) == multiset(PageNames(pages))
    ensures SortByPage(listed) == PageNames(pages)
  {
    PageNamesInOrder(pages);
    SortedPermutationUnique(PageNames(pages), SortByPage(listed), PageKey);
  }

  /** The names of strictly increasing page numbers are sorted by key, and
      their keys tell them apart. */
  lemma PageNamesInOrder(pages: seq<nat>)
    requires forall i, j :: 0 <= i < j < |pages| ==> pages[i] < pages[j]
    requires forall i :: 0 <= i < |pages| ==> pages[i] <= IntMax
    ensures SortedBy(PageNames(pages), PageKey) && DistinctKeys(PageNames(pages), PageKey)
  {
    var expected := PageNames(pages);
    forall i | 0 <= i < |pages| ensures PageKey(expected[i]) == pages[i] {
      PageKeyOfPageFileName(pages[i]);
    }
  }

  // ----- Survivors ------------------------------------------------------------

  /** What `QFileInfo` reports about a path. */
  datatype FileStat = FileStat(present: bool, size: int)

  /** `dir.absoluteFilePath(name)` for the output directory. */
  function AbsolutePath(dir: string, name: string): string
  {
    dir + "/" + name
  }

  /** A file is kept when it exists and is not empty. */
  predicate Survives(stat: string -> FileStat, path: string)
  {
    stat(path).present && stat(path).size > 0
  }

  /** The names whose files exist and are non-empty, in their listed order. */
  function Survivors(dir: string, names: seq<string>, stat: string -> FileStat): (kept: seq<string>)
    ensures multiset(kept) <= multiset(names)
    ensures forall n :: n in kept <==> n in names && Survives(stat, AbsolutePath(dir, n))
  {
    if |names| == 0 then []
    else
      var rest := Survivors(dir, names[1..], stat);
      assert names == [names[0]] + names[1..];
      if Survives(stat, AbsolutePath(dir, names[0])) then [names[0]] + rest else rest
  }

  /** Dropping files keeps the page order of the ones that remain. */
  lemma {:induction false} SurvivorsKeepOrder(dir: string, names: seq<string>,
                                              stat: string -> FileStat, key: string -> int)
    requires SortedBy(names, key)
    ensures SortedBy(Survivors(dir, names, stat), key)
    decreases |names|
  {
    if |names| > 0 {
      var rest := Survivors(dir, names[1..], stat);
      assert SortedBy(names[1..], key) by {
        forall i, j | 0 <= i < j < |names| - 1 ensures key(names[1..][i]) <= key(names[1..][j]) {
          assert names[1..][i] == names[i + 1] && names[1..][j] == names[j + 1];
        }
      }
      SurvivorsKeepOrder(dir, names[1..], stat, key);
      if Survives(stat, AbsolutePath(dir, names[0])) {
        forall k | 0 <= k < |rest| ensures key(names[0]) <= key(rest[k]) {
          assert rest[k] in rest;
          var j :| 0 <= j < |names[1..]| && names[1..][j] == rest[k];
          assert names[j + 1] == rest[k];
        }
        ConsSorted(names[0], rest, key);
      }
    }
  }

  function AbsolutePaths(dir: string, names: seq<string>): (r: seq<string>)
    ensures |r| == |names|
    ensures forall k :: 0 <= k < |names| ==> r[k] == AbsolutePath(dir, names[k])
  {
    if |names| == 0 then [] else [AbsolutePath(dir, names[0])] + AbsolutePaths(dir, names[1..])
  }

  /** The result of `convertPDFToImagesWithPoppler`: the page files, the
      updated temp-file list, and the progress values emitted on the way. */
  datatype Conversion = Conversion(files: seq<string>, tempFiles: seq<string>, progress: seq<int>)

  /** Polling rounds of the rasterizer: 2 s each, at most 60 s. */
  const PopplerPollLimit: nat := 30

  /** Progress emitted after polling round `k`: 20% to 35% by elapsed time. */
  function PollProgress(k: nat): int
  {
    20 + (15 * (2000 * k)) / 60000
  }

  function PollTrace(rounds: nat): (r: seq<int>)
    requires rounds <= PopplerPollLimit
    ensures |r| == rounds
    ensures forall k :: 0 <= k < rounds ==> r[k] == PollProgress(k + 1) && 20 <= r[k] <= 35
    ensures NonDecreasing(r)
  {
    if rounds == 0 then [] else PollTrace(rounds - 1) + [PollProgress(rounds)]
  }

  /** Progress while the rasterizer runs: 15% at start, 20% once started,
      then one value per polling round. */
  function RunProgress(run: Run): (r: seq<int>)
    requires !run.FailedToStart?
    ensures |r| == 2 + Rounds(run, PopplerPollLimit) && r[..2] == [15, 20]
    ensures forall k :: 0 <= k < |r| ==> 15 <= r[k] <= 35
    ensures NonDecreasing(r)
  {
    AppendNonDecreasing([15, 20], PollTrace(Rounds(run, PopplerPollLimit)));
    [15, 20] + PollTrace(Rounds(run, PopplerPollLimit))
  }

  /** The exit the post-processing sees: after a timeout the process has been
      terminated (or killed) and its status is inspected all the same. */
  function ConversionExit(run: Run): Option<Exit>
  {
    match run
    case FailedToStart(_) => None
    case TimedOut(stopped) => Some(stopped)
    case Finished(_, exit) => Some(exit)
  }

  /** The page files kept from a successful run: the listed names in page
      order, minus those whose file is missing or empty. */
  function KeptPages(dir: string, entries: seq<string>, stat: string -> FileStat): (kept: seq<string>)
    ensures SortedByKey(kept)
    ensures multiset(kept) <= multiset(Listed(entries))
    ensures forall n :: n in Listed(entries) ==> (n in kept <==> Survives(stat, AbsolutePath(dir, n)))
    ensures forall n :: n in kept ==> n in Listed(entries) && Survives(stat, AbsolutePath(dir, n))
  {
    var listed := Listed(entries);
    var sorted := SortByPage(listed);
    SurvivorsKeepOrder(dir, sorted, stat, PageKey);
    assert forall n :: n in listed <==> n in sorted by {
      forall n ensures n in listed <==> n in multiset(sorted) { }
    }
    Survivors(dir, sorted, stat)
  }

  lemma AbsolutePathsSurvive(dir: string, names: seq<string>, stat: string -> FileStat)
    requires forall n :: n in names ==> Survives(stat, AbsolutePath(dir, n))
    ensures forall f :: f in AbsolutePaths(dir, names) ==> Survives(stat, f)
  {
    var files := AbsolutePaths(dir, names);
    forall f | f in files ensures Survives(stat, f) {
      var k :| 0 <= k < |files| && files[k] == f;
      assert names[k] in names;
    }
  }

  /** The absolute paths of the kept page files: every one exists and is
      non-empty. */
  function PageFiles(dir: string, entries: seq<string>, stat: string -> FileStat): (files: seq<string>)
    ensures forall f :: f in files ==> Survives(stat, f)
  {
    var kept := KeptPages(dir, entries, stat);
    AbsolutePathsSurvive(dir, kept, stat);
    AbsolutePaths(dir, kept)
  }

  /** The run counts as a success only when it started and exited normally
      with code 0 (after a timeout, the status of the killed process). */
  predicate Succeeded(run: Run)
  {
    ConversionExit(run).Some? && ConversionExit(run).value.Clean()
  }

  /** `convertPDFToImagesWithPoppler`: no files unless the run succeeded;
      otherwise the kept page files as absolute paths, each appended to the
      temp-file list. */
  function ConvertPdf(dir: string, run: Run, entries: seq<string>,
                      stat: string -> FileStat, tempFiles: seq<string>): (c: Conversion)
    ensures c.tempFiles == tempFiles + c.files
    ensures !Succeeded(run) ==> c.files == []
    ensures Succeeded(run) ==> c.files == PageFiles(dir, entries, stat)
    ensures forall f :: f in c.files ==> Survives(stat, f)
    ensures |c.progress| > 0 && c.progress[0] == 15
    ensures forall k :: 0 <= k < |c.progress| ==> 15 <= c.progress[k] <= 35
    ensures NonDecreasing(c.progress)
    ensures Succeeded(run) ==> c.progress[|c.progress| - 1] == 35
  {
    match ConversionExit(run)
    case None => Conversion([], tempFiles, [15])
    case Some(exit) =>
      var polled := RunProgress(run);
      if !exit.Clean() then Conversion([], tempFiles, polled)
      else
        var files := PageFiles(dir, entries, stat);
        AppendNonDecreasing(polled, [35]);
        Conversion(files, tempFiles + files, polled + [35])
  }
}
