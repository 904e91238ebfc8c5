/** The parts of a file path that `QFileInfo` exposes and the pipeline uses:
    `fileName()`, `suffix()` and `baseName()`, over '/'-separated paths. */
module Paths {

  /** The characters after the last `c` in `s`; all of `s` if `c` does not occur. */
  function AfterLast(s: string, c: char): (r: string)
    ensures c !in r
    ensures |r| <= |s| && r == s[|s| - |r|..]
    ensures |r| < |s| ==> s[|s| - |r| - 1] == c
  {
    if |s| == 0 then ""
    else if s[|s| - 1] == c then ""
    else AfterLast(s[..|s| - 1], c) + [s[|s| - 1]]
  }

  /** The characters before the first `c` in `s`; all of `s` if `c` does not occur. */
  function BeforeFirst(s: string, c: char): (r: string)
    ensures c !in r
    ensures r <= s
    ensures |r| < |s| ==> s[|r|] == c
  {
    if |s| == 0 || s[0] == c then "" else [s[0]] + BeforeFirst(s[1..], c)
  }

  lemma {:induction false} AfterLastWithout(s: string, c: char)
    requires c !in s
    ensures AfterLast(s, c) == s
    decreases |s|
  {
    if |s| > 0 {
      AfterLastWithout(s[..|s| - 1], c);
    }
  }

  /** Whatever precedes the last `c` does not influence `AfterLast`. */
  lemma {:induction false} AfterLastIgnoresPrefix(a: string, c: char, b: string)
    ensures AfterLast(a + [c] + b, c) == AfterLast(b, c)
    decreases |b|
  {
    if |b| == 0 {
      assert a + [c] + b == a + [c];
    } else {
      var s := a + [c] + b;
      assert s[..|s| - 1] == a + [c] + b[..|b| - 1];
      AfterLastIgnoresPrefix(a, c, b[..|b| - 1]);
    }
  }

  /** `QFileInfo::fileName`: the last path component. */
  function FileName(path: string): string
  {
    AfterLast(path, '/')
  }

  /** `QFileInfo::suffix`: what follows the last '.' of the file name, or "". */
  function Suffix(path: string): (r: string)
    ensures '.' !in r && '/' !in r
  {
    var name := FileName(path);
    if '.' in name then AfterLast(name, '.') else ""
  }

  /** `QFileInfo::baseName`: the file name up to its first '.'. */
  function BaseName(path: string): (r: string)
    ensures '.' !in r && '/' !in r
  {
    BeforeFirst(FileName(path), '.')
  }

  /** The suffix of `dir/base.ext` is `ext`, whatever the directory and the
      base name are. */
  lemma SuffixOfComposedPath(dir: string, base: string, ext: string)
    requires '/' !in base && '/' !in ext && '.' !in ext
    ensures Suffix(dir + "/" + base + "." + ext) == ext
  {
    var name := base + ['.'] + ext;
    var path := dir + "/" + base + "." + ext;
    assert path == dir + ['/'] + name;
    assert FileName(path) == name by {
      AfterLastIgnoresPrefix(dir, '/', name);
      AfterLastWithout(name, '/');
    }
    assert '.' in name by {
      assert name[|base|] == '.';
    }
    assert AfterLast(name, '.') == ext by {
      AfterLastIgnoresPrefix(base, '.', ext);
      AfterLastWithout(ext, '.');
    }
  }

  /** Replacing the directory never changes the suffix. */
  lemma SuffixIgnoresDirectory(dir: string, name: string)
    ensures Suffix(dir + "/" + name) == Suffix(name)
  {
    assert dir + "/" + name == dir + ['/'] + name;
    assert FileName(dir + "/" + name) == FileName(name) by {
      AfterLastIgnoresPrefix(dir, '/', name);
    }
  }
}
