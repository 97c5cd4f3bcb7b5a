// Stylesheet inputs: the list of main stylesheet sources compiled by the
// `css-dev` and `css-prod` tasks, and the glob the `default` task watches.

module Styles {
  import opened BuildConfig
  import opened Strings

  /** `${assetsPath}${cssFolder}/${cssFile}.${preprocessor}` */
  function CssSrcPath(cfg: Config, file: string, ext: string): string
  {
    cfg.assetsPath + cfg.cssFolder + "/" + file + "." + ext
  }

  /** The paths one main stylesheet contributes: one per extension, in order. */
  function PathsForFile(cfg: Config, file: string, exts: seq<string>): (r: seq<string>)
    ensures |r| == |exts|
  {
    if exts == [] then []
    else PathsForFile(cfg, file, exts[..|exts| - 1]) + [CssSrcPath(cfg, file, exts[|exts| - 1])]
  }

  /** Path j of one main stylesheet is the one for extension j. */
  lemma {:induction false} PathsForFileAt(cfg: Config, file: string, exts: seq<string>, j: nat)
    requires j < |exts|
    ensures PathsForFile(cfg, file, exts)[j] == CssSrcPath(cfg, file, exts[j])
  {
    var n := |exts|;
    if j < n - 1 {
      PathsForFileAt(cfg, file, exts[..n - 1], j);
    }
  }

  /** The file-major product of `files` and `exts`, as path strings. */
  function CssSrcs(cfg: Config, files: seq<string>, exts: seq<string>): seq<string>
  {
    if files == [] then []
    else CssSrcs(cfg, files[..|files| - 1], exts) + PathsForFile(cfg, files[|files| - 1], exts)
  }

  /** One more extension adds one path at the end. */
  lemma PathsForFileStep(cfg: Config, file: string, exts: seq<string>, j: nat)
    requires j < |exts|
    ensures PathsForFile(cfg, file, exts[..j + 1]) ==
      PathsForFile(cfg, file, exts[..j]) + [CssSrcPath(cfg, file, exts[j])]
  {
    assert exts[..j + 1][..j] == exts[..j];
  }

  /** One more main stylesheet adds its paths at the end. */
  lemma CssSrcsStep(cfg: Config, files: seq<string>, exts: seq<string>, i: nat)
    requires i < |files|
    ensures CssSrcs(cfg, files[..i + 1], exts) ==
      CssSrcs(cfg, files[..i], exts) + PathsForFile(cfg, files[i], exts)
  {
    assert files[..i + 1][..i] == files[..i];
  }

  /** `getCssSrcArray`: nested loops over the main stylesheets and the
      preprocessor extensions, pushing one path per pair. */
  method GetCssSrcArray(cfg: Config) returns (retArr: seq<string>)
    ensures retArr == CssSrcs(cfg, cfg.mainCssFiles, cfg.cssPreprocessor)
  {
    var files, exts := cfg.mainCssFiles, cfg.cssPreprocessor;
    retArr := [];
    for i := 0 to |files|
      invariant retArr == CssSrcs(cfg, files[..i], exts)
    {
      ghost var done := retArr;
      for j := 0 to |exts|
        invariant retArr == done + PathsForFile(cfg, files[i], exts[..j])
      {
        PathsForFileStep(cfg, files[i], exts, j);
        retArr := retArr + [CssSrcPath(cfg, files[i], exts[j])];
      }
      assert exts[..|exts|] == exts;
      CssSrcsStep(cfg, files, exts, i);
    }
    assert files[..|files|] == files;
  }

  /** The list holds exactly |files| * |exts| paths. */
  lemma {:induction false} CssSrcsLength(cfg: Config, files: seq<string>, exts: seq<string>)
    ensures |CssSrcs(cfg, files, exts)| == |files| * |exts|
  {
    if files != [] {
      var n := |files|;
      CssSrcsLength(cfg, files[..n - 1], exts);
      assert (n - 1) * |exts| + |exts| == n * |exts|;
    }
  }

  /** The list is empty exactly when one of the two input lists is. */
  lemma CssSrcsEmpty(cfg: Config, files: seq<string>, exts: seq<string>)
    ensures CssSrcs(cfg, files, exts) == [] <==> files == [] || exts == []
  {
    CssSrcsLength(cfg, files, exts);
    if files != [] && exts != [] {
      assert |files| * |exts| >= 1 * |exts|;
    }
  }

  /** The paths of the first i main stylesheets are a prefix of the whole list. */
  lemma {:induction false} CssSrcsPrefix(cfg: Config, files: seq<string>, exts: seq<string>, i: nat)
    requires i <= |files|
    ensures CssSrcs(cfg, files[..i], exts) <= CssSrcs(cfg, files, exts)
  {
    var n := |files|;
    if i == n {
      assert files[..i] == files;
    } else {
      CssSrcsPrefix(cfg, files[..n - 1], exts, i);
      assert files[..n - 1][..i] == files[..i];
    }
  }

  /** The path of every (file, extension) pair is in the list. */
  lemma CssSrcsContains(cfg: Config, files: seq<string>, exts: seq<string>, i: nat, j: nat)
    requires i < |files| && j < |exts|
    ensures CssSrcPath(cfg, files[i], exts[j]) in CssSrcs(cfg, files, exts)
  {
    var upto := CssSrcs(cfg, files[..i + 1], exts);
    var here := PathsForFile(cfg, files[i], exts);
    CssSrcsStep(cfg, files, exts, i);
    CssSrcsPrefix(cfg, files, exts, i + 1);
    PathsForFileAt(cfg, files[i], exts, j);
    assert here[j] in upto;
  }

  /** Past the paths of the first i main stylesheets come those of file i, one per extension. */
  lemma CssSrcsAtOffset(cfg: Config, files: seq<string>, exts: seq<string>, i: nat, j: nat)
    requires i < |files| && j < |exts|
    ensures |CssSrcs(cfg, files[..i], exts)| + j < |CssSrcs(cfg, files, exts)|
    ensures CssSrcs(cfg, files, exts)[|CssSrcs(cfg, files[..i], exts)| + j] == CssSrcPath(cfg, files[i], exts[j])
  {
    var before := CssSrcs(cfg, files[..i], exts);
    var upto := CssSrcs(cfg, files[..i + 1], exts);
    CssSrcsStep(cfg, files, exts, i);
    CssSrcsPrefix(cfg, files, exts, i + 1);
    PathsForFileAt(cfg, files[i], exts, j);
    assert upto[|before| + j] == CssSrcPath(cfg, files[i], exts[j]);
  }

  /** Element i*|exts|+j is file i with extension j (file-major order). */
  lemma CssSrcsAt(cfg: Config, files: seq<string>, exts: seq<string>, i: nat, j: nat)
    requires i < |files| && j < |exts|
    ensures i * |exts| + j < |CssSrcs(cfg, files, exts)| == |files| * |exts|
    ensures CssSrcs(cfg, files, exts)[i * |exts| + j] == CssSrcPath(cfg, files[i], exts[j])
  {
    CssSrcsAtOffset(cfg, files, exts, i, j);
    CssSrcsLength(cfg, files[..i], exts);
    CssSrcsLength(cfg, files, exts);
  }

  /** Every path in the list names some main stylesheet with some extension. */
  lemma {:induction false} CssSrcsOnlyPairs(cfg: Config, files: seq<string>, exts: seq<string>, x: string)
    requires x in CssSrcs(cfg, files, exts)
    ensures exists i, j :: 0 <= i < |files| && 0 <= j < |exts| && x == CssSrcPath(cfg, files[i], exts[j])
  {
    var n := |files|;
    var front := files[..n - 1];
    var last := PathsForFile(cfg, files[n - 1], exts);
    assert CssSrcs(cfg, files, exts) == CssSrcs(cfg, front, exts) + last;
    if x in CssSrcs(cfg, front, exts) {
      CssSrcsOnlyPairs(cfg, front, exts, x);
      var i, j :| 0 <= i < |front| && 0 <= j < |exts| && x == CssSrcPath(cfg, front[i], exts[j]);
      assert files[i] == front[i];
    } else {
      var j :| 0 <= j < |last| && last[j] == x;
      PathsForFileAt(cfg, files[n - 1], exts, j);
      assert x == CssSrcPath(cfg, files[n - 1], exts[j]);
    }
  }

  /** A path is in the list exactly when it names some main stylesheet with some extension. */
  lemma {:induction false} CssSrcsMembers(cfg: Config, files: seq<string>, exts: seq<string>, x: string)
    ensures x in CssSrcs(cfg, files, exts) <==>
      exists i, j :: 0 <= i < |files| && 0 <= j < |exts| && x == CssSrcPath(cfg, files[i], exts[j])
  {
    if x in CssSrcs(cfg, files, exts) {
      CssSrcsOnlyPairs(cfg, files, exts, x);
    }
    if exists i, j :: 0 <= i < |files| && 0 <= j < |exts| && x == CssSrcPath(cfg, files[i], exts[j]) {
      var i, j :| 0 <= i < |files| && 0 <= j < |exts| && x == CssSrcPath(cfg, files[i], exts[j]);
      CssSrcsContains(cfg, files, exts, i, j);
    }
  }

  /** The glob the `default` task watches to re-run `css-dev`:
      every file under the stylesheet folder with one of the preprocessor extensions. */
  function CssWatchGlob(cfg: Config): string
  {
    cfg.assetsPath + cfg.cssFolder + "/**/*.{" + Join(cfg.cssPreprocessor, ',') + "}"
  }

  /** The brace alternation of the watch glob lists exactly the preprocessor
      extensions, in order, when there is at least one and none contains a comma. */
  lemma CssWatchGlobAlternatives(cfg: Config)
    requires |cfg.cssPreprocessor| >= 1
    requires forall k :: 0 <= k < |cfg.cssPreprocessor| ==> ',' !in cfg.cssPreprocessor[k]
    ensures var g, prefix := CssWatchGlob(cfg), cfg.assetsPath + cfg.cssFolder + "/**/*.{";
      |prefix| < |g| && g[..|prefix|] == prefix && g[|g| - 1] == '}' &&
      Split(g[|prefix|..|g| - 1], ',') == cfg.cssPreprocessor
  {
    var g, prefix := CssWatchGlob(cfg), cfg.assetsPath + cfg.cssFolder + "/**/*.{";
    var body := Join(cfg.cssPreprocessor, ',');
    assert g == prefix + body + "}";
    assert g[|prefix|..|g| - 1] == body;
    SplitJoin(cfg.cssPreprocessor, ',');
  }
}
