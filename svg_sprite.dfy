// The rename callback of the `svg-sprite` task. The sprite generator emits two
// files (the merged symbol sprite and a stylesheet fragment); the callback
// receives each file's parsed path and rewrites its three fields in place,
// choosing the branch by the extension alone.

module SvgSprite {
  import opened BuildConfig

  /** The `{dirname, basename, extname}` record the rename callback receives. */
  datatype ParsedPath = ParsedPath(dirname: string, basename: string, extname: string)

  /** Where the callback sends a file: the sprite into the image folder, anything else
      into the stylesheet folder as `svg-symbols.scss`. */
  function Renamed(p: ParsedPath, cfg: Config): ParsedPath
  {
    if p.extname == ".svg" then ParsedPath("./" + cfg.imageFolder, "sprite", ".svg")
    else ParsedPath("./" + cfg.cssFolder, "svg-symbols", ".scss")
  }

  /** The mutable path object handed to the callback. */
  class PathRecord {
    var dirname: string
    var basename: string
    var extname: string

    function Value(): ParsedPath
      reads this
    {
      ParsedPath(dirname, basename, extname)
    }

    constructor (p: ParsedPath)
      ensures Value() == p
    {
      dirname, basename, extname := p.dirname, p.basename, p.extname;
    }

    /** The callback: four assignments, each of the first three reading the
        extension before the last one overwrites it. */
    method Rename(cfg: Config)
      modifies this
      ensures Value() == Renamed(old(Value()), cfg)
    {
      dirname := "./";
      dirname := dirname + (if extname == ".svg" then cfg.imageFolder else cfg.cssFolder);
      basename := if extname == ".svg" then "sprite" else "svg-symbols";
      extname := if extname == ".svg" then ".svg" else ".scss";
    }
  }

  /** Routing is by extension only: `.svg` lands in the image folder as `sprite.svg`,
      every other extension in the stylesheet folder as `svg-symbols.scss`. */
  lemma RenameRoutesByExtension(p: ParsedPath, cfg: Config)
    ensures Renamed(p, cfg).extname == ".svg" <==> p.extname == ".svg"
    ensures p.extname == ".svg" ==> Renamed(p, cfg) == ParsedPath("./" + cfg.imageFolder, "sprite", ".svg")
    ensures p.extname != ".svg" ==> Renamed(p, cfg) == ParsedPath("./" + cfg.cssFolder, "svg-symbols", ".scss")
  {
  }

  /** The incoming dirname and basename never affect the result. */
  lemma RenameIgnoresDirAndBase(p: ParsedPath, q: ParsedPath, cfg: Config)
    requires p.extname == q.extname
    ensures Renamed(p, cfg) == Renamed(q, cfg)
  {
  }

  /** Renaming an already renamed record changes nothing. */
  lemma RenameIdempotent(p: ParsedPath, cfg: Config)
    ensures Renamed(Renamed(p, cfg), cfg) == Renamed(p, cfg)
  {
  }
}
