# Snowpack Babel plugin: import-specifier rewriting

This project models the core of Snowpack's Babel plugin
(`assets/babel-plugin.js`). The plugin rewrites the specifier of every
`import`/`export … from`/`import()` so that a browser can load it
unbundled:

- a bare package name found in the import map points into the output
  directory (`/web_modules/…`, or a `../…` path in relative mode);
- a URL target is kept;
- an unmapped bare name is kept and reported;
- a local import is optionally resolved on disk and turned into a relative
  `.js` path.

Around that rewriter sit the option defaulting of the plugin factory and the
search for the import-map file.

Everything in the source core is straight-line branching over strings, so the
model is made of datatypes, functions and lemmas:

- `Common` (`common.dfy`) holds `Option`, `Result` and the
  `startsWith`/ends-with/character tests.
- `PosixPath` (`posix_path.dfy`) is Node's `path.posix` on segment lists:
  - `Split`/`JoinSegs` are `split('/')`/`join('/')`;
  - `Canon` is `normalizeString`;
  - then `Normalize`, `Join`, `Resolve`, `Relative` and `Dirname`.

  `Relative` resolves both arguments against the working directory, as Node
  does, so the working directory is a parameter.
- `ImportRewrite` (`import_rewrite.dfy`) is `rewriteImport`. The on-disk
  resolver (`enhanced-resolve`) is an uninterpreted function
  `resolveOnDisk(dirOfFile, imp): Option<string>`. The log call becomes a
  `warned` flag in the `Outcome`.
- `PluginOptions` (`plugin_options.dfy`) is the defaulting of the options
  object. Option values are JavaScript values with their truthiness.
- `ImportMapFile` (`import_map_file.dfy`) is `readImportMapFile` over a
  table from resolved paths to file contents, with `process.cwd()` as a
  field.

Behaviours of the code that the model keeps as written:

- A local import is one starting with `.` (line 37), not only `./`: `.foo`
  counts too.
- The mapping is consulted before the URL and local-path tests (line 39),
  even for path-like or URL-like specifiers.
- An empty-string target counts as unmapped (line 40).
- Relative mode measures depth from the importing file itself
  (`relative(filename, root)`, line 46), not from its directory. For a
  one-segment `dir`, a file `n` segments below the root (its own name
  counted) therefore gets `n` `..` segments, capped by the depth of the
  working directory; `ImportRewrite.RelativeModeDepth` and
  `ImportRewrite.ExampleRelativeDepth` state this count. A `dir` of several
  segments adds further `..` through `relative(dirname(dir), …)` at line 47
  (dir "a/b" gives "../.." for a file directly in the root), and that lemma
  does not cover it. Line 47 also resolves the climb a second time against
  the working directory, which is where the cap comes from.

Two places where the code departs from what it evidently intends are listed
under "Findings" below: the depth count of lines 46-47, which the option documentation
at lines 88-91 describes as "zero or many" `..` by the depth of the
transformed file, and the `./` prefix of line 70. `ImportRewrite.RewriteImport`
models the code as written. `ImportRewrite.RewriteImportCorrected` carries
both corrections and nothing else, and `ImportRewrite.CorrectedDiffersOnlyThere`
states that it differs nowhere else.

## Model

| member | source | states |
|---|---|---|
| `ImportRewrite.RewriteImport` | assets/babel-plugin.js:36-79 | a warning is logged only where the specifier comes back as it is or with ".js" appended, and never for a mapped specifier or an unmapped URL |
| `ImportRewrite.RewriteImportCorrected` | assets/babel-plugin.js:36-79 | the rewriter with lines 46-47 and 70 corrected keeps the same warning guarantees |
| `ImportRewrite.CorrectedDiffersOnlyThere` | assets/babel-plugin.js:36-79 | the corrected rewriter warns exactly when the one as written does, and gives the same specifier except for a mapped non-URL target in relative mode and a resolved local import |
| `ImportRewrite.MappedUrlReturned` | assets/babel-plugin.js:39-42 | a mapped target starting with http:// or https:// is the result exactly, whatever the specifier looks like and whatever the other arguments are |
| `ImportRewrite.MappingTakesPrecedence` | assets/babel-plugin.js:37-52 | two specifiers with the same non-empty target get the same outcome, whether either looks like a path, a URL or a bare name and whether resolution is on; no warning |
| `ImportRewrite.EmptyTargetIsUnmapped` | assets/babel-plugin.js:39-40 | an entry with an empty target behaves exactly as no entry |
| `ImportRewrite.MappedAbsolute` | assets/babel-plugin.js:44-50 | outside relative mode a non-URL target becomes `posix.join("/", dir, target)`, which starts with "/" |
| `ImportRewrite.MappedAbsoluteUnderDir` | assets/babel-plugin.js:44-50 | for a directory and target made of ordinary segments that path is "/" + dir + "/" + target |
| `ImportRewrite.MappedRelative` | assets/babel-plugin.js:44-48 | in relative mode the result is `relative(dirname(dir), relative(filename, root))` + the joined path, so it ends with the joined path |
| `ImportRewrite.RelativeModeDepth` | assets/babel-plugin.js:45-48 | as written, for a one-segment dir and a file `B` segments below the root (its name counted), the prefix is min(B, depth of the working directory) ".." segments |
| `ImportRewrite.RelativeModeDepthCorrected` | assets/babel-plugin.js:45-48 | with lines 46-47 corrected, the prefix for a file `B` segments below the root (its name counted) is exactly B - 1 ".." segments, whatever the working directory and the dir; a file directly in the root gets none, so its specifier is the absolute joined path "/" + dir + "/" + target |
| `ImportRewrite.MappedRelativeCorrectedLeadsUnderRoot` | assets/babel-plugin.js:44-48 | with lines 46-47 corrected, for a file at least one directory below the root and a dir and target of ordinary segments, the specifier read from the file's directory names root/dir/target, whatever the working directory |
| `ImportRewrite.RemoteUnchanged` | assets/babel-plugin.js:53-55 | an unmapped URL is returned unchanged, without a warning |
| `ImportRewrite.BareUnmappedWarned` | assets/babel-plugin.js:56-59 | an unmapped specifier that is neither a URL nor local is returned unchanged, with a warning |
| `ImportRewrite.SourceNotRemote` | assets/babel-plugin.js:37-38 | a specifier that passes the local-import test is never a URL |
| `ImportRewrite.SourceUnresolvedUnchanged` | assets/babel-plugin.js:60-78 | with resolution off an unmapped local import is returned unchanged, without a warning |
| `ImportRewrite.SourceResolutionFails` | assets/babel-plugin.js:71-76 | when the resolver finds nothing the result is the specifier + ".js", with a warning |
| `ImportRewrite.SourceResolved` | assets/babel-plugin.js:60-70 | when the resolver finds a file the result is that file relative to the importer's directory; it has no backslash, no .ts or .tsx ending, no match of the `.jsx` pattern except the name "./jsx", and starts with "." |
| `ImportRewrite.SourceResolvedCorrected` | assets/babel-plugin.js:60-70 | in the corrected rewriter the same branch gives the corrected specifier, with the same shape, and it starts with "./" or "../" |
| `ImportRewrite.ResolveNoneLeavesLocalImports` | assets/babel-plugin.js:92-93 | with `resolve` other than "node" and no truthy `optionalExtensions`, the defaulted options make the rewriter return every unmapped local import unchanged, without a warning |
| `ImportRewrite.ResolveNodeRewritesLocalImports` | assets/babel-plugin.js:94-97 | with `resolve: "node"` or a truthy `optionalExtensions`, every unmapped local import becomes the relative specifier of the file the resolver finds, or the specifier + ".js" with a warning when it finds none |
| `ImportRewrite.WarnedExactly` | assets/babel-plugin.js:36-79 | a warning is logged if and only if the specifier is an unmapped bare name, or an unmapped local import that resolution could not find |
| `ImportRewrite.UnchangedByKind` | assets/babel-plugin.js:53-78 | an unmapped URL, an unmapped bare name, and a local import with resolution off all come back unchanged |
| `ImportRewrite.ResolverOnlyForSourceImports` | assets/babel-plugin.js:60-65 | the resolver is consulted only for an unmapped local import with resolution on: otherwise any two resolvers give the same outcome |
| `ImportRewrite.DirOnlyForMappedPaths` | assets/babel-plugin.js:43-50 | `dir` and `importType` make a difference only for a mapped target that is not a URL |
| `ImportRewrite.ReplaceBackslashes` | assets/babel-plugin.js:69 | the result has the input's length, no backslash, and every other character in place |
| `ImportRewrite.EndsWithJs` | assets/babel-plugin.js:68 | a path ending in ".js" is not matched by `/(\.ts\|\.tsx\|.jsx)$/` |
| `ImportRewrite.ReplaceTsExtClears` | assets/babel-plugin.js:68 | after the replacement the pattern no longer matches; an unmatched path is unchanged; a matched one has the matched suffix replaced by ".js" |
| `ImportRewrite.BackslashesKeepNoMatch` | assets/babel-plugin.js:68-69 | turning backslashes into slashes cannot create a match of the extension pattern |
| `ImportRewrite.DotPrefixMarksRelative` | assets/babel-plugin.js:70 | the corrected prefixing always yields "./" or "../" at the start and otherwise keeps the path |
| `ImportRewrite.AsWrittenStartsWithDot` | assets/babel-plugin.js:70 | line 70 as written always yields a path that starts with "." |
| `ImportRewrite.FinishShape` | assets/babel-plugin.js:68-70 | lines 68-70 as written turn any relative path into a specifier without backslashes or a TypeScript ending (the name "./jsx" aside) that starts with "." |
| `ImportRewrite.FinishCorrectedShape` | assets/babel-plugin.js:68-70 | with the corrected line 70 the specifier has the same shape and starts with "./" or "../" |
| `ImportRewrite.ResolvedSpecifierLeadsToFile` | assets/babel-plugin.js:61-70 | when lines 68-69 leave the relative path alone, the emitted specifier, as written and corrected, resolved from the importer's directory is the file the resolver found |
| `ImportRewrite.DotSlashIgnored` | assets/babel-plugin.js:70 | a leading "./" does not change where a relative path leads |
| `ImportRewrite.ResolvedSiblingTs` | assets/babel-plugin.js:61-70 | a file `base.ts` found next to the importer is imported as "./base.js", except that as written it gets no "./" when `base + ".js"` starts with "." (a `base` starting with ".", or an empty one); the corrected rewriter always gives "./base.js" |
| `ImportRewrite.DotPrefixAsWrittenKeepsDotDirectory` | assets/babel-plugin.js:60-70 | "./.storybook/util" imported from /p/App.js and resolved to /p/.storybook/util.js comes out of the rewriter as written as ".storybook/util.js", with no relative marker |
| `ImportRewrite.DotPrefixMarksDotDirectory` | assets/babel-plugin.js:60-70 | the corrected rewriter gives "./.storybook/util.js" for the same import |
| `ImportRewrite.ExampleMappedAbsolute` | assets/babel-plugin.js:39-50 | dir "web_modules" with "foo" mapped to "foo.js" gives "/web_modules/foo.js"; the path-like "/foo" mapped to "bar-1.0.0.js" also takes the mapped branch and gives "/web_modules/bar-1.0.0.js" |
| `ImportRewrite.ExampleRelativeDepth` | assets/babel-plugin.js:45-48 | relative mode for /p/src/components/App.js under root /p, run from /home/u/p, gives "../../../web_modules/foo.js" |
| `ImportRewrite.ExampleRelativeDepthCorrected` | assets/babel-plugin.js:45-48 | with lines 46-47 corrected the same file gives "../../web_modules/foo.js" |
| `ImportRewrite.ExampleShallowCwd` | assets/babel-plugin.js:45-48 | relative mode for /app/src/components/App.js under root /app, run from /app, gives "../web_modules/foo.js": line 47 stops the climb at the file-system root |
| `ImportRewrite.ExampleShallowCwdCorrected` | assets/babel-plugin.js:45-48 | with lines 46-47 corrected the same file, run from /app, gives "../../web_modules/foo.js" |
| `ImportRewrite.ExampleResolvedTs` | assets/babel-plugin.js:60-70 | "./util" resolved to /p/src/util.ts from /p/src/App.js gives "./util.js", as written and corrected |
| `ImportRewrite.ExampleMissing` | assets/babel-plugin.js:71-76 | "./missing" that cannot be resolved gives "./missing.js", with a warning |
| `ImportRewrite.ExampleBare` | assets/babel-plugin.js:56-59 | "some-pkg" with an empty map is kept, with a warning |
| `ImportRewrite.ExampleUnresolved` | assets/babel-plugin.js:78 | "./util" with resolution off is kept, without a warning |
| `PosixPath.NormalizeIdempotent` | assets/babel-plugin.js:44 | `normalize` (the last step of `join`) applied twice is applied once |
| `PosixPath.JoinUnderDir` | assets/babel-plugin.js:44 | `join("/", D, T)` for directory and target made of ordinary segments is "/" + D + "/" + T |
| `PosixPath.JoinRootedIsAbsolute` | assets/babel-plugin.js:44 | a `join` whose first argument is "/" is an absolute path |
| `PosixPath.ResolveRooted` | assets/babel-plugin.js:46-47 | an absolute path made of ordinary segments resolves to exactly those segments |
| `PosixPath.RelativeNotAbsolute` | assets/babel-plugin.js:66-67 | `relative` never returns a path starting with "/" |
| `PosixPath.RelativeRoundTrip` | assets/babel-plugin.js:66-67 | resolving `relative(from, to)` from `from` gives `to` |
| `PosixPath.RelativeToAncestor` | assets/babel-plugin.js:46 | from a path `B` segments below an ancestor, `relative` to the ancestor is `B` ".." segments |
| `PosixPath.RelativeFromCwdToUps` | assets/babel-plugin.js:47 | `relative(".", n ".." segments)` is min(n, depth of the working directory) ".." segments |
| `PosixPath.RelativeFromCwdToSelf` | assets/babel-plugin.js:47 | `relative(".", "")` is empty: both name the working directory |
| `PosixPath.DirnameOfSegment` | assets/babel-plugin.js:47 | the dirname of a one-segment relative path is "." |
| `PosixPath.DirnameDropsLast` | assets/babel-plugin.js:62 | the dirname of a path of ordinary segments drops its last segment ("/" or "." when only one is left) |
| `PosixPath.DirnameOfRooted` | assets/babel-plugin.js:62 | the dirname of "/" followed by ordinary segments is "/" followed by all but the last |
| `PosixPath.ResolveMatchesNodeConcatenation` | assets/babel-plugin.js:66-67 | resolving a relative path equals normalising cwd + "/" + path, as Node's `resolve` does |
| `PosixPath.ResolveNormalize` | assets/babel-plugin.js:10-14 | normalising a path never changes which file it names |
| `PosixPath.ResolveJoinUnderCwd` | assets/babel-plugin.js:10-14 | `join(cwd, dir, name)` names the file reached by walking dir and then name from the working directory, even when dir starts with "/" |
| `PluginOptions.ResolveRelativeExactly` | assets/babel-plugin.js:92-104 | an absent `resolve` gives the same settings as "none", which leaves resolution off; "node" turns it on; a truthy `optionalExtensions` gives exactly the settings of `resolve: "node"`; any `resolve` other than "node" gives the settings of "none" |
| `PluginOptions.DirDefaulted` | assets/babel-plugin.js:105 | a truthy `dir` is kept, a falsy one becomes "web_modules"; the result is always truthy |
| `PluginOptions.ImportTypeDefaulted` | assets/babel-plugin.js:106 | a truthy `importType` is kept, a falsy one becomes "absolute"; relative mode is selected if and only if the option is exactly "relative" |
| `PluginOptions.AddVersionOnlyWarns` | assets/babel-plugin.js:108-112 | the deprecation warning is logged if and only if `addVersion` is truthy, and the option changes nothing else |
| `PluginOptions.DefaultsWithoutOptions` | assets/babel-plugin.js:101-106 | with no options: no resolution, dir "web_modules", importType "absolute", no warning |
| `PluginOptions.DefaultsIdempotent` | assets/babel-plugin.js:104-106 | feeding the defaulted values back in as options changes none of them |
| `ImportMapFile.ReadImportMapFile` | assets/babel-plugin.js:5-28 | whatever the search returns is the contents of some file |
| `ImportMapFile.ExplicitReadsOnlyItsFile` | assets/babel-plugin.js:6-12 | an explicit path reads that one file and no other: the outcome depends on that table entry alone, and a failure names that path |
| `ImportMapFile.ExplicitAbsoluteIgnoresDir` | assets/babel-plugin.js:7-9 | an explicit absolute path is read as it is, whatever `dir` is |
| `ImportMapFile.ExplicitRelativeUnderDir` | assets/babel-plugin.js:10-11 | an explicit relative path is read by walking `dir` and then the path from the working directory |
| `ImportMapFile.DefaultsUnderDir` | assets/babel-plugin.js:13-14 | the two default files are import-map.local.json and import-map.json directly inside `dir` under the working directory |
| `ImportMapFile.LocalFirst` | assets/babel-plugin.js:15-19 | without an explicit path the local map is read whenever it exists |
| `ImportMapFile.DefaultSecond` | assets/babel-plugin.js:20-24 | the default map is read when the local one is missing |
| `ImportMapFile.NotFoundNamesBoth` | assets/babel-plugin.js:25-27 | the search fails if and only if both files are missing, and the error names both paths, local first |
| `ImportMapFile.SearchReadsOnlyTwoFiles` | assets/babel-plugin.js:13-27 | disks that agree on the two default files give the same outcome |
| `ImportMapFile.NonStringPathRejected` | assets/babel-plugin.js:7 | a truthy `importMap` option that is not a string is rejected before any file is read |

## Left out

- The Babel plugin object, its visitors and `pre()` (lines 114-161) are left out. That covers the AST traversal, `replaceWith`, the `this.importMapJson` field, and skipping non-string dynamic imports and `export` without `from`. This is host-framework plumbing around `rewriteImport`.
- `getImportMap` and `JSON.parse` (lines 30-34) are left out, along with the implicit global `importMapJson` they assign. The import map is given as a map from strings to strings. Non-string values in the JSON, and inherited keys such as `constructor` that a plain object lookup would find, are not modelled.
- `enhanced-resolve` (lines 63-65), with its extension list and directory-index probing, is an uninterpreted oracle. Any exception it throws is its "not found".
- `fs.readFileSync` and `process.cwd()` (lines 8-24) become a table from resolved paths to contents and a working-directory field. Every read failure is a missing table entry, so permission errors and directories are not told apart. The file encoding is not modelled.
- Console output (lines 57, 74, 109-111) is reduced to a boolean that records whether a warning was logged. The message text is not modelled.
- Windows path semantics are left out. Lines 62 and 67 call `path.dirname`/`path.relative`, which are the POSIX ones on POSIX hosts; only those are modelled.
- `ImportRewrite.RewriteImport` takes `dir` as a string, matching the option's declared type. A truthy non-string `dir` would make `path.posix.join` throw; that case is not modelled.
- `ImportRewrite.RewriteImport` takes `importType` as a string. Only equality with "relative" matters at line 45, and `PluginOptions.ImportTypeDefaulted` states that rule for any option value.
- `ImportRewrite.RewriteImport` takes the importing file's `filename` as a string. Babel can leave it undefined for code given without a file; then line 46 throws out of `rewriteImport`, and line 62 throws inside the `try`, giving the specifier + ".js" with a warning. Neither case is modelled.
- `ImportRewrite.ExtMatchLen` lets the unescaped `.` of the pattern at line 68 stand for one Dafny character, a Unicode code point. JavaScript's `.` matches one UTF-16 code unit, so for a character outside the Basic Multilingual Plane just before "jsx" the code replaces only its second surrogate, where the model replaces the whole character; that case is not modelled.
- `ImportMapFile.ReadImportMapFile` takes `dir` as a string for the same reason as `RewriteImport`: the defaulted `dir` is truthy, and a non-string one would make `path.join` throw.
- `ImportRewrite.ResolvedSpecifierLeadsToFile` states where the specifier leads only when lines 68-69 leave the relative path unchanged. Where the extension is rewritten, the specifier names the `.js` sibling of the found file; this is proved only for a file beside the importer (`ImportRewrite.ResolvedSiblingTs`).

## Findings

| source | as written | input that shows it | evidently intended | confidence | as-written member | corrected member |
|---|---|---|---|---|---|---|
| assets/babel-plugin.js:70 | a resolved relative path is left without "./" whenever it starts with ".", so a path into a dot-directory (".storybook/util.js") or a name such as "..foo.js" stays a bare specifier, which a browser treats as a package name | `import "./.storybook/util"` from /p/App.js, resolved to /p/.storybook/util.js | add "./" unless the path already starts with "./" or "../": an ES module loader reads a specifier as relative only when it starts with "/", "./" or "../", and a path from `relative` never starts with "/" | not executed | `ImportRewrite.DotPrefixAsWrittenKeepsDotDirectory` | `ImportRewrite.DotPrefixMarksDotDirectory` |
| assets/babel-plugin.js:46 | `relative(filename, root)` starts from the importing file rather than its directory, so as long as the working directory is at least as deep as the file lies below the root (counting the file name), relative mode adds one ".." too many: a file directly in the root gets one (none only when the working directory is "/"), where the option documentation at lines 88-91 speaks of "zero or many". A shallower working directory is the subject of the next row | mapped "foo" in relative mode, dir "web_modules", file /p/src/components/App.js under root /p, run from /home/u/p: "../../../web_modules/foo.js" | `relative(dirname(filename), root)`, giving "../../web_modules/foo.js"; the extra ".." is harmless when the root is served at the top of the site, where a URL cannot climb higher, and wrong under a base path. For a file directly in the root the correction gives no ".." and so the absolute "/web_modules/foo.js", which is wrong under a base path too | medium; not executed | `ImportRewrite.ExampleRelativeDepth` | `ImportRewrite.ExampleRelativeDepthCorrected` |
| assets/babel-plugin.js:47 | `relative(dirname(dir), relativeToRoot)` resolves the ".." climb of line 46 a second time, against the working directory, where it stops at the file-system root; the count is therefore capped at the depth of the working directory, and a file whose directory lies more segments below the root than the working directory has segments gets too few ".." | Babel's default, root = working directory: mapped "foo" in relative mode, dir "web_modules", file /app/src/components/App.js under root /app, run from /app: "../web_modules/foo.js", which names /app/src/web_modules/foo.js | use the climb from the file's directory to the root as it is: `relative(dirname(filename), root) + join("/", dir, target)`, giving "../../web_modules/foo.js" from any working directory, since both paths are absolute | medium; not executed | `ImportRewrite.ExampleShallowCwd` | `ImportRewrite.ExampleShallowCwdCorrected` |

`ImportRewrite.RewriteImport` and the lemmas about it model the code as
written. `ImportRewrite.RewriteImportCorrected` uses both corrected
definitions, `ImportRewrite.MappedPathCorrected` (lines 46-47) and
`ImportRewrite.ResolvedSpecifierCorrected` (line 70);
`ImportRewrite.RelativeModeDepthCorrected`,
`ImportRewrite.MappedRelativeCorrectedLeadsUnderRoot`,
`ImportRewrite.FinishCorrectedShape` and `ImportRewrite.SourceResolvedCorrected`
state the intended properties of them.
