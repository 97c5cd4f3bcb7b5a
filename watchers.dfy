// The reactions the `default` task binds to template and image changes,
// as functions from a change event to what the handler acts on.

module Watchers {
  import opened BuildConfig
  import opened Strings

  /** A change event: gulp's `file.type` ("added", "changed", "deleted", …) and `file.path`. */
  datatype WatchEvent = WatchEvent(kind: string, path: string)

  /** What the jade handler does: render one file into a folder, or delete paths. */
  datatype JadeReaction =
    | RenderTemplate(src: string, destDir: string)
    | DeleteFiles(paths: seq<string>)

  /** What the image handler does: optimise one file into a folder, or nothing. */
  datatype ImageReaction =
    | OptimizeImage(src: string, destDir: string)
    | NoAction

  function TemplatesDir(cfg: Config): string
  {
    cfg.outputPath + cfg.staticTemplatesFolder
  }

  /** The name the handler deletes, as written: the last `/`-segment of the
      path with its FIRST occurrence of "jade" replaced by "html". */
  function DeletedOutputName(path: string): string
  {
    ReplaceFirst(LastSegment(path, '/'), "jade", "html")
  }

  /** The jade watcher: re-render the file unless it was deleted; on deletion,
      delete the source and the output named by `DeletedOutputName`. */
  function OnJadeChange(cfg: Config, ev: WatchEvent): JadeReaction
  {
    if ev.kind != "deleted" then RenderTemplate(ev.path, TemplatesDir(cfg))
    else DeleteFiles([ev.path, TemplatesDir(cfg) + "/" + DeletedOutputName(ev.path)])
  }

  /** A deletion deletes exactly two paths and renders nothing: the source, and one
      file directly inside the templates folder; any other event renders just that file. */
  lemma OnJadeChangeCases(cfg: Config, ev: WatchEvent)
    ensures OnJadeChange(cfg, ev).DeleteFiles? <==> ev.kind == "deleted"
    ensures ev.kind != "deleted" ==> OnJadeChange(cfg, ev) == RenderTemplate(ev.path, TemplatesDir(cfg))
    ensures ev.kind == "deleted" ==>
      var paths := OnJadeChange(cfg, ev).paths;
      |paths| == 2 && paths[0] == ev.path &&
      exists name :: '/' !in name && paths[1] == TemplatesDir(cfg) + "/" + name
  {
    if ev.kind == "deleted" {
      LastSegmentIsTail(ev.path, '/');
      ReplaceFirstAvoids(LastSegment(ev.path, '/'), "jade", "html", '/');
      var name := DeletedOutputName(ev.path);
      assert '/' !in name;
    }
  }

  /** When "jade" first occurs in the extension, the deleted name is the source's
      name with `.jade` swapped for `.html`. */
  lemma {:induction false} DeletedOutputNameSwapsExtension(path: string, stem: string)
    requires LastSegment(path, '/') == stem + ".jade"
    requires forall k :: 0 <= k <= |stem| ==> !OccursAt(stem + ".jade", "jade", k)
    ensures DeletedOutputName(path) == stem + ".html"
  {
    var n := stem + ".jade";
    var i := |stem| + 1;
    assert n[i..i + 4] == "jade";
    ReplaceFirstAt(n, "jade", "html", i);
    assert n[..i] == stem + ".";
    assert n[i + 4..] == "";
  }

  /** The last segment of `dir/name` is `name` when `name` has no slash. */
  lemma LastSegmentOfChild(dir: string, name: string)
    requires '/' !in name
    ensures LastSegment(dir + "/" + name, '/') == name
  {
    var path := dir + "/" + name;
    LastSegmentIsTail(path, '/');
    var t := LastSegment(path, '/');
    assert path[|path| - |name|..] == name;
    assert path[|path| - |name| - 1] == '/';
  }

  /** A template whose name contains "jade" before its extension, in any folder:
      the handler deletes `html-intro.jade`, while the renderer wrote `jade-intro.html`. */
  lemma DeletedOutputNameMisnames(dir: string)
    ensures DeletedOutputName(dir + "/jade-intro.jade") == "html-intro.jade"
    ensures IntendedOutputName(dir + "/jade-intro.jade") == "jade-intro.html"
  {
    var name := "jade-intro.jade";
    assert dir + "/jade-intro.jade" == dir + "/" + name;
    LastSegmentOfChild(dir, name);
    assert "jade" <= name;
    assert name[..|name| - 5] == "jade-intro";
  }

  /** The name the renderer gives the output of a template: its `.jade`
      extension replaced by `.html`. */
  function IntendedOutputName(path: string): string
  {
    var n := LastSegment(path, '/');
    if |n| >= 5 && n[|n| - 5..] == ".jade" then n[..|n| - 5] + ".html" else n
  }

  /** The intended name swaps the extension whatever the stem contains. */
  lemma IntendedOutputNameSwapsExtension(path: string, stem: string)
    requires LastSegment(path, '/') == stem + ".jade"
    ensures IntendedOutputName(path) == stem + ".html"
  {
    var n := stem + ".jade";
    assert n[|n| - 5..] == ".jade";
    assert n[..|n| - 5] == stem;
  }

  /** The jade watcher with the deletion target named as the renderer names it. */
  function OnJadeChangeIntended(cfg: Config, ev: WatchEvent): JadeReaction
  {
    if ev.kind != "deleted" then RenderTemplate(ev.path, TemplatesDir(cfg))
    else DeleteFiles([ev.path, TemplatesDir(cfg) + "/" + IntendedOutputName(ev.path)])
  }

  /** On deleting `<stem>.jade`, the intended handler removes the source and
      exactly the rendered `<stem>.html`; it agrees with the handler as written
      whenever "jade" occurs only in the extension. */
  lemma OnJadeChangeIntendedDeletesRendered(cfg: Config, ev: WatchEvent, stem: string)
    requires ev.kind == "deleted" && LastSegment(ev.path, '/') == stem + ".jade"
    ensures OnJadeChangeIntended(cfg, ev) ==
      DeleteFiles([ev.path, TemplatesDir(cfg) + "/" + stem + ".html"])
    ensures (forall k :: 0 <= k <= |stem| ==> !OccursAt(stem + ".jade", "jade", k)) ==>
      OnJadeChange(cfg, ev) == OnJadeChangeIntended(cfg, ev)
  {
    IntendedOutputNameSwapsExtension(ev.path, stem);
    assert TemplatesDir(cfg) + "/" + (stem + ".html") == TemplatesDir(cfg) + "/" + stem + ".html";
    if forall k :: 0 <= k <= |stem| ==> !OccursAt(stem + ".jade", "jade", k) {
      DeletedOutputNameSwapsExtension(ev.path, stem);
    }
  }

  /** The image watcher: re-optimise the changed file into the output image
      folder; a deletion does nothing. */
  function OnImageChange(cfg: Config, ev: WatchEvent): ImageReaction
  {
    if ev.kind != "deleted" then OptimizeImage(ev.path, cfg.outputPath + cfg.imageFolder)
    else NoAction
  }

  /** Deleting an image triggers nothing; every other event optimises exactly that file. */
  lemma OnImageChangeCases(cfg: Config, ev: WatchEvent)
    ensures OnImageChange(cfg, ev) == NoAction <==> ev.kind == "deleted"
    ensures ev.kind != "deleted" ==>
      OnImageChange(cfg, ev) == OptimizeImage(ev.path, cfg.outputPath + cfg.imageFolder)
  {
  }

  /** The image watcher acts on exactly the events on which the template watcher
      renders, and every optimised image goes to the same output folder. */
  lemma ImageWatcherMatchesTemplates(cfg: Config, ev: WatchEvent, other: WatchEvent)
    ensures OnImageChange(cfg, ev).OptimizeImage? <==> OnJadeChange(cfg, ev).RenderTemplate?
    ensures OnImageChange(cfg, ev).OptimizeImage? && OnImageChange(cfg, other).OptimizeImage? ==>
      OnImageChange(cfg, ev).destDir == OnImageChange(cfg, other).destDir
  {
  }
}
