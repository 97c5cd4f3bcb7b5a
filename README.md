# static-sandbox build script, modelled in Dafny

The repository's `gulpfile.babel.js` wires third-party gulp plugins into
build tasks. This project models the small pieces of logic the script
computes itself, and proves what they promise:

- **Stylesheet sources** (`getCssSrcArray`). The file-major product of the
  main stylesheet names and the preprocessor extensions, as path strings
  (module `Styles`).
- **CSS watch glob**. One brace alternation built from the preprocessor
  list (`Styles.CssWatchGlob`).
- **SVG sprite rename**. The callback that rewrites a `{dirname, basename,
  extname}` record in place, choosing its branch by the extension alone
  (module `SvgSprite`; class `PathRecord`).
- **Local IP**. The `local-ip` task scans the network interface table and
  lets every IPv4 entry of `en0`/`en1` overwrite the module-level `_ip`
  (module `ScriptPaths`; class `Session` holds `_ip`).
- **Script URLs**. The `js-path` task builds one URL per main script from
  `_ip`, the dev-server port and a timestamp (`Session.JsPath`). The
  `build` task runs it without `local-ip` (`BuildScripts`).
- **Watcher reactions**. The jade and image watchers of the `default`
  task, as functions from a change event to what the handler acts on
  (module `Watchers`).

Module `Strings` holds the JavaScript string operations these pieces use:
`join`, `split`, `replace` with a string pattern and a replacement free of `$` patterns (first occurrence only),
and the decimal text of an integer Number. `BuildConfig.Config` holds the
configuration fields that the logic reads.

Inputs from the environment are parameters:

- the interface table (`os.networkInterfaces()`) is an ordered list of
  `NetInterface` values;
- the clock readings (`new Date().getTime()`, one per script at line 150)
  are a list `stamps`;
- the configuration (`config.js`) is a `Config` value.

What the code does at the points where a reader might expect otherwise:

- With no primary interface the host is dropped whole, port included
  (line 147), so every URL is `/js/<file>.js?v=<stamp>`.
- The last IPv4 entry of `en0`/`en1` in iteration order wins (lines
  133-141); no interface is preferred over the other.
- The deleted output's name replaces the first `jade` anywhere in the file
  name (line 206), not the extension (see Findings).

## Model

| member | source | states |
|---|---|---|
| `Strings.Join` | gulpfile.babel.js:191 | `join(',')`: the elements separated by commas, `""` for an empty list; its property is `Strings.SplitJoin` |
| `Strings.LastSegment` | gulpfile.babel.js:205-206 | `fileParts[fileParts.length - 1]` of `split('/')`; its property is `Strings.LastSegmentIsTail` |
| `Strings.ReplaceFirst` | gulpfile.babel.js:206 | `replace(pat, rep)` with a string pattern; its properties are `Strings.ReplaceFirstAt`, `Strings.ReplaceFirstAbsent` and `Strings.ReplaceFirstAvoids` |
| `Styles.CssSrcPath` | gulpfile.babel.js:35 | the template `${assetsPath}${cssFolder}/${cssFile}.${preprocessor}`; used by `Styles.CssSrcsAt` and `Styles.CssSrcsMembers` |
| `Styles.CssSrcs` | gulpfile.babel.js:30-40 | the file-major product that `getCssSrcArray` returns; its properties are `Styles.CssSrcsLength`, `Styles.CssSrcsAt` and `Styles.CssSrcsMembers` |
| `Styles.CssWatchGlob` | gulpfile.babel.js:191 | the CSS watch glob; its property is `Styles.CssWatchGlobAlternatives` |
| `SvgSprite.Renamed` | gulpfile.babel.js:107-110 | the record the rename callback produces; its properties are `SvgSprite.RenameRoutesByExtension`, `SvgSprite.RenameIgnoresDirAndBase` and `SvgSprite.RenameIdempotent` |
| `ScriptPaths.ScanAddresses` | gulpfile.babel.js:137-141 | `_ip` after the `forEach` over one interface's entries; its properties are `ScriptPaths.ScanAddressesNone` and `ScriptPaths.ScanAddressesLast` |
| `ScriptPaths.ScanInterfaces` | gulpfile.babel.js:133-142 | `_ip` after the `for…in` loop; its properties are `ScriptPaths.LocalIpUnchanged`, `ScriptPaths.LocalIpPicksLast` and `ScriptPaths.LocalIpSource` |
| `ScriptPaths.Host` | gulpfile.babel.js:147 | `''` for a null `_ip`, else `'http://'+ip+':'+localPort`; its property is `ScriptPaths.ScriptUrlHost` |
| `ScriptPaths.ScriptUrl` | gulpfile.babel.js:150 | `host+'/js/'+file+'.js?v='+time`; used by `ScriptPaths.Session.JsPath` and `ScriptPaths.ScriptUrlHost` |
| `Watchers.DeletedOutputName` | gulpfile.babel.js:205-206 | the name the jade watcher deletes, as written; its properties are `Watchers.DeletedOutputNameSwapsExtension` and `Watchers.DeletedOutputNameMisnames` |
| `Watchers.OnJadeChange` | gulpfile.babel.js:194-208 | the jade watcher's reaction to an event; its property is `Watchers.OnJadeChangeCases` |
| `Watchers.OnImageChange` | gulpfile.babel.js:229-238 | the image watcher's reaction to an event; its property is `Watchers.OnImageChangeCases` |
| `Strings.Split` | gulpfile.babel.js:205 | `split('/')` always yields at least one piece, and no piece contains the separator |
| `Strings.JoinSplit` | gulpfile.babel.js:205 | joining the pieces of `split` with the separator gives back the original path |
| `Strings.SplitJoin` | gulpfile.babel.js:191 | splitting `join(',')` of a non-empty list of comma-free strings gives back the list |
| `Strings.LastSegmentIsTail` | gulpfile.babel.js:205-206 | `fileParts[fileParts.length - 1]` is the slash-free tail of the path after its last `/` (the whole path when there is none) |
| `Strings.LastSegmentIsSuffix` | gulpfile.babel.js:205-206 | the last piece of `split('/')` is a suffix of the path, the whole path exactly when there is one piece |
| `Strings.LastSegmentAfterSeparator` | gulpfile.babel.js:205-206 | a last piece shorter than the path is preceded by `/` |
| `Strings.ReplaceFirstAt` | gulpfile.babel.js:206 | `replace(pat, rep)` with first occurrence at `i` yields `s[..i] + rep + s[i+|pat|..]`: only that occurrence changes |
| `Strings.ReplaceFirstAbsent` | gulpfile.babel.js:206 | `replace` leaves a string without the pattern unchanged |
| `Strings.ReplaceFirstAvoids` | gulpfile.babel.js:206 | `replace` adds no character found in neither the string nor the replacement (so the output name stays slash-free) |
| `Strings.Decimal` | gulpfile.babel.js:150 | the text of an integer Number is a non-empty string of digits with no leading zero |
| `Strings.DecimalRoundTrip` | gulpfile.babel.js:147-150 | the decimal text of the port or timestamp reads back as the same number |
| `Styles.PathsForFile` | gulpfile.babel.js:34-36 | the inner loop yields exactly one path per extension |
| `Styles.PathsForFileAt` | gulpfile.babel.js:34-36 | entry j of the inner loop's output is `assetsPath+cssFolder+"/"+file+"."+ext_j`, so the extensions keep their order |
| `Styles.GetCssSrcArray` | gulpfile.babel.js:30-40 | the nested loops return exactly the file-major product `CssSrcs` of main stylesheets and extensions |
| `Styles.CssSrcsLength` | gulpfile.babel.js:30-40 | the list holds `|mainCssFiles| * |cssPreprocessor|` paths |
| `Styles.CssSrcsEmpty` | gulpfile.babel.js:30-40 | the list is empty exactly when one of the two input lists is empty |
| `Styles.CssSrcsPrefix` | gulpfile.babel.js:33-37 | the paths of the first i main stylesheets come first in the list, as the outer loop pushes them |
| `Styles.CssSrcsContains` | gulpfile.babel.js:33-37 | the path of every (file, extension) pair is in the list |
| `Styles.CssSrcsAtOffset` | gulpfile.babel.js:33-37 | right after the paths of the first i main stylesheets come the paths of stylesheet i, extension j at offset j |
| `Styles.CssSrcsAt` | gulpfile.babel.js:33-37 | element `i*|P|+j` is `assetsPath+cssFolder+"/"+file_i+"."+pre_j` (file-major order) |
| `Styles.CssSrcsOnlyPairs` | gulpfile.babel.js:33-37 | every listed path names some main stylesheet with some extension |
| `Styles.CssSrcsMembers` | gulpfile.babel.js:33-37 | a path is listed if and only if it is `CssSrcPath` of some (file, extension) pair |
| `Styles.CssWatchGlobAlternatives` | gulpfile.babel.js:191 | the watch glob is `assetsPath+cssFolder+"/**/*.{"` + alternatives + `"}"`, and the alternatives split back into exactly the preprocessor list |
| `SvgSprite.PathRecord.Rename` | gulpfile.babel.js:106-111 | the callback leaves the record equal to `Renamed` of its old value; all three reads see the original extension |
| `SvgSprite.RenameRoutesByExtension` | gulpfile.babel.js:107-110 | `.svg` becomes `./imageFolder`, `sprite`, `.svg`; any other extension becomes `./cssFolder`, `svg-symbols`, `.scss`; the output is `.svg` iff the input was |
| `SvgSprite.RenameIgnoresDirAndBase` | gulpfile.babel.js:106-111 | two records with the same extension are renamed alike, whatever their dirname and basename |
| `SvgSprite.RenameIdempotent` | gulpfile.babel.js:108-110 | renaming a renamed record changes nothing |
| `ScriptPaths.Session.constructor` | gulpfile.babel.js:130 | `_ip` starts as `null` |
| `ScriptPaths.Session.LocalIp` | gulpfile.babel.js:131-143 | the loop leaves `_ip` equal to `ScanInterfaces` of the table and the old `_ip` |
| `ScriptPaths.ScanAddressesNone` | gulpfile.babel.js:137-141 | a `forEach` over entries with no IPv4 one leaves `_ip` as it was |
| `ScriptPaths.ScanAddressesLast` | gulpfile.babel.js:137-141 | otherwise `_ip` ends as the address of the last IPv4 entry |
| `ScriptPaths.LastIPv4` | gulpfile.babel.js:137-141 | a list with an IPv4 entry has a last one |
| `ScriptPaths.LastQualifying` | gulpfile.babel.js:133-142 | a table with a qualifying entry has one that comes last in iteration order |
| `ScriptPaths.LocalIpUnchanged` | gulpfile.babel.js:130-143 | with no IPv4 entry on an interface named exactly `en0` or `en1`, `_ip` is unchanged (stays `null` on a fresh run) |
| `ScriptPaths.LocalIpPicksLast` | gulpfile.babel.js:133-142 | `_ip` ends as the address of the qualifying entry that is last in iteration order |
| `ScriptPaths.LocalIpSource` | gulpfile.babel.js:133-142 | `_ip` is either unchanged or the address of an IPv4 entry of `en0`/`en1`, never anything else |
| `ScriptPaths.Session.JsPath` | gulpfile.babel.js:146-151 | one URL per main script, same length and order; entry k is `host+"/js/"+file_k+".js?v="+t_k` with the host derived from `_ip` |
| `ScriptPaths.BuildScripts` | gulpfile.babel.js:242 | `build` runs `js-path` without `local-ip`, so every URL is the relative `/js/<file>.js?v=<t_k>` |
| `ScriptPaths.ScriptUrlHost` | gulpfile.babel.js:147-150 | a null `_ip` gives `/js/...`; an address gives `http://<ip>:<port>/js/...` |
| `Watchers.OnJadeChangeCases` | gulpfile.babel.js:194-208 | a non-deleted event renders exactly the changed file into the templates folder; a deleted one renders nothing and deletes exactly two paths, the source and one slash-free name directly in the templates folder |
| `Watchers.DeletedOutputNameSwapsExtension` | gulpfile.babel.js:205-206 | when `jade` occurs only in the extension, the deleted name is `<stem>.html` |
| `Watchers.LastSegmentOfChild` | gulpfile.babel.js:205 | the last segment of `dir/name` is `name` for a slash-free name |
| `Watchers.DeletedOutputNameMisnames` | gulpfile.babel.js:205-206 | for `<dir>/jade-intro.jade` the handler deletes `html-intro.jade`, while the rendered file is `jade-intro.html` |
| `Watchers.IntendedOutputNameSwapsExtension` | gulpfile.babel.js:205-207 | the corrected name of `<stem>.jade` is `<stem>.html` for every stem |
| `Watchers.OnJadeChangeIntendedDeletesRendered` | gulpfile.babel.js:204-207 | the corrected handler deletes the source and exactly `<templates>/<stem>.html`, and agrees with the handler as written whenever `jade` occurs only in the extension |
| `Watchers.OnImageChangeCases` | gulpfile.babel.js:229-238 | a deleted image triggers nothing; any other event optimises exactly that file into the output image folder |
| `Watchers.ImageWatcherMatchesTemplates` | gulpfile.babel.js:229-238 | the image watcher skips deletions just as the template watcher skips rendering them, and sends every image to the one folder `outputPath+imageFolder` |

## Findings

| source | as written | input that shows it | evidently intended | confidence | as-written member | corrected member |
|---|---|---|---|---|---|---|
| gulpfile.babel.js:206 | the deleted output's name is the file name with its first `jade` replaced by `html` | deleting `<dir>/jade-intro.jade` deletes `html-intro.jade`; the stale `jade-intro.html` survives | delete the rendered counterpart, the name with `.jade` swapped for `.html` | high; not executed | `Watchers.DeletedOutputNameMisnames` | `Watchers.OnJadeChangeIntendedDeletesRendered` |

`Watchers.OnJadeChange` keeps the handler as written. `Watchers.OnJadeChangeIntended`
is the corrected handler, and `Watchers.OnJadeChangeIntendedDeletesRendered`
states where the two agree. The renderer (gulp-jade) names its output by
swapping the extension; that library is not part of this model.

## Left out

- Gulp stream plumbing and plugin behaviour: sass, autoprefixer, sourcemaps, imagemin and pngquant, spritesmith, svg-symbols, jade rendering, gulp-html-replace, plumber. These are third-party libraries.
- Injecting the script list into the templates (gulp-html-replace, lines 153-165). That is library behaviour; the model stops at the script list.
- Task scheduling by gulp and run-sequence (prerequisite lists at lines 116, 180, 184, 242). Gulp 3 runs prerequisites concurrently, so whether `local-ip` finishes before `js-path` in `default` is not modelled. `Session` offers both operations and fixes no order.
- `gulp.watch` glob matching, `del` and every filesystem effect. The watchers are modelled only as functions from an event to what they act on.
- The CSS, sprite and HTML watchers (lines 187, 191, 212-219). They bind a glob to a task or to a reload and have no logic of their own; only the CSS glob string is modelled.
- The image globs of `img-optimize`, `img-sprite` and `svg-sprite`, and the spritesmith options (lines 81-88, 101, 117-121). They are literal arguments to libraries.
- browser-sync, the webpack dev server and `webpack/makeconfig.js`. These are network servers and a literal library configuration.
- yargs flag parsing (lines 25-27).
- `config.js` is not part of this model. Its values are the fields of `BuildConfig.Config`, and `localPort` is taken to be an integer Number.
- `os.networkInterfaces()`, `Date.now()` and `new Date().getTime()` are parameters. The interface table is a list in the order `for…in` visits its keys; JavaScript's own key ordering is not modelled.
- `family` is compared as a string with `"IPv4"`. Runtimes that report it as the number 4 are not modelled.
- `Strings.ReplaceFirst`: the `$` patterns of a JavaScript replacement string (`$&`, `$$`, `` $` ``, `$'`) are not expanded; the one call (line 206) passes `"html"`, which holds none.
- `Strings.Decimal`: models Number-to-text only for non-negative integers below 1e21. Ports and millisecond timestamps stay in that range; exponent notation is not modelled.
- `Styles.CssWatchGlobAlternatives`: proved only for a non-empty extension list with no commas in it. With an empty list the glob ends in `{}`, and an extension containing a comma would split into two alternatives.
