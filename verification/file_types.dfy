/** File-type classification and the file-dialog filter string of the
    FileProcessor: everything here depends on the path's suffix only. */
module FileTypes {
  import opened Text
  import opened Paths

  /** The nine kinds a path can be classified as; `Unknown` is the catch-all. */
  datatype FileType =
    | ImagePng | ImageJpg | ImageJpeg | ImageBmp | ImageGif | ImageTiff | ImageWebp
    | DocumentPdf
    | Unknown
  {
    predicate IsImage() {
      !DocumentPdf? && !Unknown?
    }
  }

  /** The recognised image extensions, in the order the filter lists them. */
  const ImageExtensions: seq<string> := ["png", "jpg", "jpeg", "bmp", "gif", "tiff", "tif", "webp"]

  /** The recognised document extensions. */
  const DocumentExtensions: seq<string> := ["pdf"]

  /** Classification of an already lower-cased extension. */
  function ClassifyExtension(ext: string): FileType
  {
    if ext == "png" then ImagePng
    else if ext == "jpg" then ImageJpg
    else if ext == "jpeg" then ImageJpeg
    else if ext == "bmp" then ImageBmp
    else if ext == "gif" then ImageGif
    else if ext == "tiff" || ext == "tif" then ImageTiff
    else if ext == "webp" then ImageWebp
    else if ext == "pdf" then DocumentPdf
    else Unknown
  }

  /** The extensions each kind is recognised by: an independent table. */
  function ExtensionsOf(t: FileType): set<string>
  {
    match t
    case ImagePng => {"png"}
    case ImageJpg => {"jpg"}
    case ImageJpeg => {"jpeg"}
    case ImageBmp => {"bmp"}
    case ImageGif => {"gif"}
    case ImageTiff => {"tiff", "tif"}
    case ImageWebp => {"webp"}
    case DocumentPdf => {"pdf"}
    case Unknown => {}
  }

  /** `getFileType`: classify by the lower-cased suffix. */
  function GetFileType(path: string): FileType
  {
    ClassifyExtension(Lower(Suffix(path)))
  }

  /** `isFileSupported`: the path classifies as a known kind. */
  function IsFileSupported(path: string): bool
  {
    GetFileType(path) != Unknown
  }

  /** `getSupportedExtensions`: the image extensions followed by "pdf". */
  function SupportedExtensions(): (r: seq<string>)
    ensures |r| == 9 && r[..8] == ImageExtensions && r[8] == "pdf"
  {
    ImageExtensions + DocumentExtensions
  }

  /** A known kind is produced by exactly the extensions the table lists for
      it, so "tif"/"tiff" share a kind and "jpg"/"jpeg" do not. */
  lemma ClassifyMatchesTable(ext: string, t: FileType)
    requires t != Unknown
    ensures ClassifyExtension(ext) == t <==> ext in ExtensionsOf(t)
  {
  }

  /** An extension is known exactly when it is in the supported list. */
  lemma KnownIffSupported(ext: string)
    ensures ClassifyExtension(ext) != Unknown <==> ext in SupportedExtensions()
  {
    var all := SupportedExtensions();
    if ClassifyExtension(ext) != Unknown {
      assert ext in {"png", "jpg", "jpeg", "bmp", "gif", "tiff", "tif", "webp", "pdf"};
      assert all[0] == "png" && all[1] == "jpg" && all[2] == "jpeg" && all[3] == "bmp";
      assert all[4] == "gif" && all[5] == "tiff" && all[6] == "tif" && all[7] == "webp";
    }
  }

  /** `isFileSupported` holds exactly when the lower-cased suffix is listed by
      `getSupportedExtensions`. */
  lemma SupportedIffListed(path: string)
    ensures IsFileSupported(path) <==> Lower(Suffix(path)) in SupportedExtensions()
  {
    KnownIffSupported(Lower(Suffix(path)));
  }

  /** The classification of `dir/base.ext` depends on `ext` alone: changing the
      directory or the base name never changes it. */
  lemma TypeDependsOnExtensionOnly(dir: string, base: string, ext: string)
    requires '/' !in base && '/' !in ext && '.' !in ext
    ensures GetFileType(dir + "/" + base + "." + ext) == ClassifyExtension(Lower(ext))
  {
    SuffixOfComposedPath(dir, base, ext);
  }

  /** Moving a file to another directory never changes its kind. */
  lemma TypeIgnoresDirectory(dir: string, name: string)
    ensures GetFileType(dir + "/" + name) == GetFileType(name)
  {
    SuffixIgnoresDirectory(dir, name);
  }

  /** Two spellings of one extension that differ only in letter case give
      `dir/base.ext` the same kind: "scan.PDF" is a PDF like "scan.pdf". */
  lemma TypeIgnoresCase(dir: string, base: string, e1: string, e2: string)
    requires '/' !in base && '/' !in e1 && '.' !in e1 && '/' !in e2 && '.' !in e2
    requires Lower(e1) == Lower(e2)
    ensures GetFileType(dir + "/" + base + "." + e1) == GetFileType(dir + "/" + base + "." + e2)
  {
    TypeDependsOnExtensionOnly(dir, base, e1);
    TypeDependsOnExtensionOnly(dir, base, e2);
  }

  // ----- File dialog filter string -----------------------------------------

  /** The "*.ext" pattern of each extension. */
  function Patterns(exts: seq<string>): (r: seq<string>)
    ensures |r| == |exts|
    ensures forall i :: 0 <= i < |exts| ==> r[i] == "*." + exts[i]
  {
    seq(|exts|, i requires 0 <= i < |exts| => "*." + exts[i])
  }

  /** Reference form of one filter group: `title (*.a *.b ...)`. */
  function Group(title: string, exts: seq<string>): string
  {
    title + " (" + Join(Patterns(exts), " ") + ")"
  }

  /** The text the builder loop has accumulated after the first `k` extensions. */
  function Spaced(exts: seq<string>): string
  {
    if |exts| == 0 then "" else Spaced(exts[..|exts| - 1]) + "*." + exts[|exts| - 1] + " "
  }

  lemma PatternsSnoc(exts: seq<string>)
    requires |exts| > 0
    ensures Patterns(exts) == Patterns(exts[..|exts| - 1]) + ["*." + exts[|exts| - 1]]
  {
    var init := exts[..|exts| - 1];
    var a, b := Patterns(exts), Patterns(init) + ["*." + exts[|exts| - 1]];
    forall i | 0 <= i < |a| ensures a[i] == b[i] {
      if i < |init| {
        assert init[i] == exts[i];
      }
    }
  }

  lemma {:induction false} SpacedIsJoinPlusSpace(exts: seq<string>)
    requires |exts| > 0
    ensures Spaced(exts) == Join(Patterns(exts), " ") + " "
    decreases |exts|
  {
    var init := exts[..|exts| - 1];
    if |init| == 0 {
      assert Patterns(exts) == ["*." + exts[0]];
    } else {
      SpacedIsJoinPlusSpace(init);
      PatternsSnoc(exts);
      JoinAppend(Patterns(init), "*." + exts[|exts| - 1], " ");
    }
  }

  /** `QString::chop(1)`: drop the last character, if any. */
  function Chop(s: string): string
  {
    if |s| == 0 then s else s[..|s| - 1]
  }

  /** One group of `getFileFilter`, built as the source builds it: append
      "*.ext " per extension, chop the final character, close the paren. The
      result has single spaces between patterns and none before ")". */
  method BuildGroup(title: string, exts: seq<string>) returns (r: string)
    ensures |exts| > 0 ==> r == Group(title, exts)
    ensures |exts| == 0 ==> r == title + " )"
  {
    var acc := title + " (";
    var i := 0;
    while i < |exts|
      invariant 0 <= i <= |exts|
      invariant acc == title + " (" + Spaced(exts[..i])
    {
      assert exts[..i + 1][..i] == exts[..i];
      acc := acc + "*." + exts[i] + " ";
      i := i + 1;
    }
    assert exts[..|exts|] == exts;
    if |exts| > 0 {
      SpacedIsJoinPlusSpace(exts);
      assert acc == title + " (" + Join(Patterns(exts), " ") + " ";
    }
    acc := Chop(acc);
    r := acc + ")";
  }

  /** `getFileFilter`: four groups joined by ";;" in the order all supported,
      images, documents, all files. */
  method FileFilter() returns (r: string)
    ensures r == Join([Group("所有支持的文件", SupportedExtensions()),
                       Group("图像文件", ImageExtensions),
                       Group("文档文件", DocumentExtensions),
                       "所有文件 (*.*)"], ";;")
  {
    var imageFilter := BuildGroup("图像文件", ImageExtensions);
    var documentFilter := BuildGroup("文档文件", DocumentExtensions);
    var allSupported := BuildGroup("所有支持的文件", SupportedExtensions());
    var last := "所有文件 (*.*)";
    r := allSupported + ";;" + imageFilter + ";;" + documentFilter + ";;" + last;
    JoinFour(allSupported, imageFilter, documentFilter, last, ";;");
  }
}
