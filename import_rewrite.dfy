/** The import-specifier rewriter of the Snowpack Babel plugin
    (`rewriteImport` in assets/babel-plugin.js). Given the import map, one
    specifier and the importing file, it decides, in this order: a mapped
    specifier takes its target (a URL as it is, anything else under the
    output directory); an unmapped URL stays; an unmapped bare name stays and
    is reported; a source import (one starting with '/', '.' or '\') is
    resolved on disk when resolution is on. */
module ImportRewrite {
  import opened Common
  import opened PosixPath
  import PluginOptions

  /** The importing file as Babel describes it (`file.opts`). */
  datatype FileOpts = FileOpts(filename: string, root: string)

  /** The collaborators the rewriter cannot see: the process's working
      directory, and the on-disk resolver (`enhanced-resolve` with the
      extensions .js, .ts, .jsx, .tsx, .json) which, asked for `imp` from
      directory `dir`, answers with the absolute path of the file found, or
      None where it throws. */
  datatype Env = Env(cwd: string, resolveOnDisk: (string, string) -> Option<string>)

  /** The rewritten specifier, and whether a warning was logged. */
  datatype Outcome = Outcome(specifier: string, warned: bool)

  predicate IsRemote(s: string)
  {
    StartsWith(s, "http://") || StartsWith(s, "https://")
  }

  /** The plugin's test for a local import: a leading '/', '.' or '\'. */
  predicate IsSourceImport(s: string)
  {
    StartsWith(s, "/") || StartsWith(s, ".") || StartsWith(s, "\\")
  }

  /** `importMap.imports[imp]` read for truthiness: a missing key and an
      empty target are both "not mapped". */
  function MappedImport(importMap: map<string, string>, imp: string): Option<string>
  {
    if imp in importMap && importMap[imp] != "" then Some(importMap[imp]) else None
  }

  // ---------------------------------------------------------------------
  // Post-processing of a resolved path

  /** The characters a regular-expression `.` does not match. */
  predicate IsLineTerminator(c: char)
  {
    c == '\n' || c == '\r' || c == '\U{2028}' || c == '\U{2029}'
  }

  /** Length of the suffix that `/(\.ts|\.tsx|.jsx)$/` matches, 0 when it
      does not match. The last alternative has an unescaped `.`, so any
      character other than a line terminator may stand before "jsx". Only a
      suffix of length 4 or 3 can match, and the longer one starts first. */
  function ExtMatchLen(s: string): nat
  {
    if EndsWith(s, ".tsx") then 4
    else if |s| >= 4 && !IsLineTerminator(s[|s| - 4]) && EndsWith(s, "jsx") then 4
    else if EndsWith(s, ".ts") then 3
    else 0
  }

  /** `s.replace(/(\.ts|\.tsx|.jsx)$/, '.js')` */
  function ReplaceTsExt(s: string): string
  {
    var k := ExtMatchLen(s);
    if k == 0 then s else s[..|s| - k] + ".js"
  }

  /** `s.replace(/\\/g, '/')`: every backslash becomes a slash, every other
      character stays where it is. */
  function ReplaceBackslashes(s: string): (r: string)
    ensures |r| == |s| && Lacks(r, '\\')
    ensures forall i :: 0 <= i < |s| ==> r[i] == (if s[i] == '\\' then '/' else s[i])
  {
    if s == [] then []
    else [if s[0] == '\\' then '/' else s[0]] + ReplaceBackslashes(s[1..])
  }

  /** A specifier that an ES module loader reads as relative. */
  predicate HasRelativeMarker(s: string)
  {
    StartsWith(s, "./") || StartsWith(s, "../")
  }

  /** Line 70 as written: a path starting with '.' is kept, any other gets
      "./" in front. A path into a dot-directory such as ".storybook/util.js"
      is therefore kept without a relative marker. */
  function DotPrefixAsWritten(rel: string): string
  {
    if StartsWith(rel, ".") then rel else "./" + rel
  }

  /** The evidently intended prefixing of line 70: "./" unless the path
      already starts with "./" or "../". */
  function DotPrefix(rel: string): string
  {
    if HasRelativeMarker(rel) then rel else "./" + rel
  }

  /** Lines 68-70 after `path.relative`: the TypeScript/JSX extension becomes
      .js, backslashes become slashes, and line 70 as written prefixes. */
  function Finish(rel: string): string
  {
    DotPrefixAsWritten(ReplaceBackslashes(ReplaceTsExt(rel)))
  }

  /** Lines 68-70 with the corrected prefixing. */
  function FinishCorrected(rel: string): string
  {
    DotPrefix(ReplaceBackslashes(ReplaceTsExt(rel)))
  }

  /** The specifier emitted for a file the resolver found at `absPath`,
      relative to the importing file's directory `dirOfFile` (lines 66-70). */
  function ResolvedSpecifier(cwd: string, dirOfFile: string, absPath: string): string
  {
    Finish(Relative(cwd, dirOfFile, absPath))
  }

  /** The same, with the corrected prefixing. */
  function ResolvedSpecifierCorrected(cwd: string, dirOfFile: string, absPath: string): string
  {
    FinishCorrected(Relative(cwd, dirOfFile, absPath))
  }

  // ---------------------------------------------------------------------
  // The rewriter

  /** The specifier's path under the output directory, as line 44 builds it,
      with the prefix of lines 45-48 in relative mode. Line 46 measures from
      the importing file itself. */
  function MappedPath(target: string, file: FileOpts, dir: string, importType: string, cwd: string): string
  {
    var joinedImport := Join(["/", dir, target]);
    if importType == "relative" then
      var relativeToRoot := Relative(cwd, file.filename, file.root);
      var relativeToDir := Relative(cwd, Dirname(dir), relativeToRoot);
      relativeToDir + joinedImport
    else joinedImport
  }

  /** The same with lines 46-47 corrected: the prefix is the path from the
      importing file's directory up to the root, and it is used as it is
      rather than resolved a second time against the working directory. */
  function MappedPathCorrected(target: string, file: FileOpts, dir: string, importType: string,
                               cwd: string): string
  {
    var joinedImport := Join(["/", dir, target]);
    if importType == "relative" then
      var relativeToRoot := Relative(cwd, Dirname(file.filename), file.root);
      relativeToRoot + joinedImport
    else joinedImport
  }

  /** `rewriteImport(importMap, imp, file, dir, shouldResolveRelative,
      importType)` as written. A warning is logged only where the specifier
      is passed through as it is or with ".js" appended, and never for a
      mapped one. */
  function RewriteImport(importMap: map<string, string>, imp: string, file: FileOpts, dir: string,
                         shouldResolveRelative: bool, importType: string, env: Env): (o: Outcome)
    ensures o.warned ==> o.specifier == imp || o.specifier == imp + ".js"
    ensures o.warned ==> MappedImport(importMap, imp).None? && !IsRemote(imp)
  {
    var isSourceImport := IsSourceImport(imp);
    var isRemoteImport := IsRemote(imp);
    var mappedImport := MappedImport(importMap, imp);
    if mappedImport.Some? then
      if IsRemote(mappedImport.value) then Outcome(mappedImport.value, false)
      else Outcome(MappedPath(mappedImport.value, file, dir, importType, env.cwd), false)
    else if isRemoteImport then Outcome(imp, false)
    else if !isSourceImport && mappedImport.None? then Outcome(imp, true)
    else if isSourceImport && shouldResolveRelative then
      var dirOfFile := Dirname(file.filename);
      match env.resolveOnDisk(dirOfFile, imp)
      case Some(absPath) => Outcome(ResolvedSpecifier(env.cwd, dirOfFile, absPath), false)
      case None => Outcome(imp + ".js", true)
    else Outcome(imp, false)
  }

  /** The rewriter with the corrections of lines 46-47 and 70 and nothing
      else changed: a mapped path in relative mode climbs from the importing
      file's directory to the root, independently of the working directory,
      and a resolved path gets "./" unless it already carries a relative
      marker. */
  function RewriteImportCorrected(importMap: map<string, string>, imp: string, file: FileOpts,
                                  dir: string, shouldResolveRelative: bool, importType: string,
                                  env: Env): (o: Outcome)
    ensures o.warned ==> o.specifier == imp || o.specifier == imp + ".js"
    ensures o.warned ==> MappedImport(importMap, imp).None? && !IsRemote(imp)
  {
    var mappedImport := MappedImport(importMap, imp);
    var dirOfFile := Dirname(file.filename);
    if mappedImport.Some? && !IsRemote(mappedImport.value) then
      Outcome(MappedPathCorrected(mappedImport.value, file, dir, importType, env.cwd), false)
    else if && mappedImport.None? && !IsRemote(imp) && IsSourceImport(imp) && shouldResolveRelative
            && env.resolveOnDisk(dirOfFile, imp).Some? then
      Outcome(ResolvedSpecifierCorrected(env.cwd, dirOfFile, env.resolveOnDisk(dirOfFile, imp).value), false)
    else RewriteImport(importMap, imp, file, dir, shouldResolveRelative, importType, env)
  }

  /** The classification of a specifier, in the order lines 39-78 test
      them: a mapping entry first, then a remote URL, then a local path, and
      otherwise a bare name. */
  datatype Kind = Mapped(target: string) | Remote | SourceLocal | BareUnmapped

  function Classify(importMap: map<string, string>, imp: string): Kind
  {
    match MappedImport(importMap, imp)
    case Some(t) => Mapped(t)
    case None =>
      if IsRemote(imp) then Remote
      else if IsSourceImport(imp) then SourceLocal
      else BareUnmapped
  }

  // ---------------------------------------------------------------------
  // The mapped branch

  /** A mapped target that is a URL is returned exactly, whatever the
      specifier looks like. */
  lemma MappedUrlReturned(importMap: map<string, string>, imp: string, file: FileOpts, dir: string,
                          shouldResolveRelative: bool, importType: string, env: Env)
    requires imp in importMap && IsRemote(importMap[imp])
    ensures RewriteImport(importMap, imp, file, dir, shouldResolveRelative, importType, env)
         == Outcome(importMap[imp], false)
  {
  }

  /** Mapping lookup comes first: for two specifiers with the same non-empty
      target the outcome is the same, whether either of them looks like a
      path, a URL or a bare name, and whether resolution is on or off. */
  lemma MappingTakesPrecedence(importMap: map<string, string>, imp1: string, imp2: string,
                               file: FileOpts, dir: string, resolve1: bool, resolve2: bool,
                               importType: string, env1: Env, env2: Env)
    requires imp1 in importMap && imp2 in importMap && importMap[imp1] == importMap[imp2] != ""
    requires env1.cwd == env2.cwd
    ensures RewriteImport(importMap, imp1, file, dir, resolve1, importType, env1)
         == RewriteImport(importMap, imp2, file, dir, resolve2, importType, env2)
    ensures !RewriteImport(importMap, imp1, file, dir, resolve1, importType, env1).warned
  {
  }

  /** An empty target counts as unmapped: the specifier is handled as if it
      had no entry at all. */
  lemma EmptyTargetIsUnmapped(importMap: map<string, string>, imp: string, file: FileOpts, dir: string,
                              shouldResolveRelative: bool, importType: string, env: Env)
    requires imp in importMap && importMap[imp] == ""
    ensures RewriteImport(importMap, imp, file, dir, shouldResolveRelative, importType, env)
         == RewriteImport(importMap - {imp}, imp, file, dir, shouldResolveRelative, importType, env)
  {
  }

  /** Outside relative mode a non-URL target becomes the absolute path
      `join("/", dir, target)`. */
  lemma MappedAbsolute(importMap: map<string, string>, imp: string, file: FileOpts, dir: string,
                       shouldResolveRelative: bool, importType: string, env: Env)
    requires MappedImport(importMap, imp).Some? && !IsRemote(importMap[imp])
    requires importType != "relative"
    ensures var o := RewriteImport(importMap, imp, file, dir, shouldResolveRelative, importType, env);
            && o == Outcome(Join(["/", dir, importMap[imp]]), false)
            && IsAbsolute(o.specifier)
  {
    JoinRootedIsAbsolute(["/", dir, importMap[imp]]);
  }

  /** With a directory and a target made of ordinary segments, the absolute
      path is "/" + dir + "/" + target. */
  lemma MappedAbsoluteUnderDir(importMap: map<string, string>, imp: string, file: FileOpts,
                               dirSegs: seq<string>, targetSegs: seq<string>,
                               shouldResolveRelative: bool, importType: string, env: Env)
    requires |dirSegs| >= 1 && AllNormal(dirSegs) && |targetSegs| >= 1 && AllNormal(targetSegs)
    requires imp in importMap && importMap[imp] == JoinSegs(targetSegs) && !IsRemote(importMap[imp])
    requires importType != "relative"
    ensures RewriteImport(importMap, imp, file, JoinSegs(dirSegs), shouldResolveRelative, importType, env).specifier
         == "/" + JoinSegs(dirSegs) + "/" + JoinSegs(targetSegs)
  {
    JoinSegsFirst(targetSegs);
    JoinUnderDir(dirSegs, targetSegs);
  }

  /** In relative mode the joined path is kept whole and prefixed by
      `relative(dirname(dir), relative(filename, root))`. */
  lemma MappedRelative(importMap: map<string, string>, imp: string, file: FileOpts, dir: string,
                       shouldResolveRelative: bool, env: Env)
    requires MappedImport(importMap, imp).Some? && !IsRemote(importMap[imp])
    ensures var o := RewriteImport(importMap, imp, file, dir, shouldResolveRelative, "relative", env);
            var joined := Join(["/", dir, importMap[imp]]);
            && !o.warned
            && o.specifier == Relative(env.cwd, Dirname(dir), Relative(env.cwd, file.filename, file.root)) + joined
            && EndsWith(o.specifier, joined)
  {
    var o := RewriteImport(importMap, imp, file, dir, shouldResolveRelative, "relative", env);
    var joined := Join(["/", dir, importMap[imp]]);
    var prefix := Relative(env.cwd, Dirname(dir), Relative(env.cwd, file.filename, file.root));
    assert o.specifier == prefix + joined;
    assert (prefix + joined)[|prefix|..] == joined;
  }

  /** The depth rule of relative mode, for an output directory named by one
      segment: a file `below` segments under the root (its own name counted,
      because line 46 starts from the file rather than from its directory)
      gets one ".." per segment, but never more than the working directory
      is deep, since those ".." are resolved against it. */
  lemma RelativeModeDepth(importMap: map<string, string>, imp: string, rootSegs: seq<string>,
                          below: seq<string>, dir: string, shouldResolveRelative: bool, env: Env)
    requires MappedImport(importMap, imp).Some? && !IsRemote(importMap[imp])
    requires AllNormal(rootSegs) && AllNormal(below) && |below| >= 1
    requires dir != "" && NoSlash(dir)
    ensures RewriteImport(importMap, imp, FileOpts("/" + JoinSegs(rootSegs + below), "/" + JoinSegs(rootSegs)),
                          dir, shouldResolveRelative, "relative", env).specifier
         == JoinSegs(Ups(Min(|below|, |CwdSegments(env.cwd)|))) + Join(["/", dir, importMap[imp]])
  {
    RelativeToAncestor(env.cwd, rootSegs, below);
    DirnameOfSegment(dir);
    RelativeFromCwdToUps(env.cwd, |below|);
  }

  /** With lines 46-47 corrected the count starts from the file's
      directory and does not depend on the working directory: one ".." per
      directory between the root and the file, none for a file directly in
      the root, as the option's documentation at lines 88-91 describes. */
  lemma RelativeModeDepthCorrected(importMap: map<string, string>, imp: string, rootSegs: seq<string>,
                                   below: seq<string>, dir: string, shouldResolveRelative: bool, env: Env)
    requires MappedImport(importMap, imp).Some? && !IsRemote(importMap[imp])
    requires AllNormal(rootSegs) && AllNormal(below) && |below| >= 1
    ensures RewriteImportCorrected(importMap, imp,
                                   FileOpts("/" + JoinSegs(rootSegs + below), "/" + JoinSegs(rootSegs)),
                                   dir, shouldResolveRelative, "relative", env).specifier
         == JoinSegs(Ups(|below| - 1)) + Join(["/", dir, importMap[imp]])
    ensures |below| == 1
            ==> (RewriteImportCorrected(importMap, imp,
                                        FileOpts("/" + JoinSegs(rootSegs + below), "/" + JoinSegs(rootSegs)),
                                        dir, shouldResolveRelative, "relative", env).specifier
                 == Join(["/", dir, importMap[imp]]))
  {
    var segs := rootSegs + below;
    var dirs := below[..|below| - 1];
    DirnameOfRooted(segs);
    assert segs[..|segs| - 1] == rootSegs + dirs;
    RelativeToAncestor(env.cwd, rootSegs, dirs);
    if |dirs| == 0 {
      assert Ups(0) == [];
      assert "" + Join(["/", dir, importMap[imp]]) == Join(["/", dir, importMap[imp]]);
    }
  }

  /** The corrected relative-mode specifier of a file one or more
      directories below the root, read from that file's directory, names
      the target under the output directory at the root, whatever the
      working directory. */
  lemma MappedRelativeCorrectedLeadsUnderRoot(importMap: map<string, string>, imp: string, file: FileOpts,
                                              rootSegs: seq<string>, below: seq<string>,
                                              dirSegs: seq<string>, targetSegs: seq<string>,
                                              shouldResolveRelative: bool, env: Env)
    requires imp in importMap && importMap[imp] == JoinSegs(targetSegs) && !IsRemote(importMap[imp])
    requires AllNormal(rootSegs) && AllNormal(below) && |below| >= 2
    requires file == FileOpts("/" + JoinSegs(rootSegs + below), "/" + JoinSegs(rootSegs))
    requires |dirSegs| >= 1 && AllNormal(dirSegs) && |targetSegs| >= 1 && AllNormal(targetSegs)
    ensures ResolveFrom(Resolve(env.cwd, Dirname(file.filename)),
                        RewriteImportCorrected(importMap, imp, file, JoinSegs(dirSegs), shouldResolveRelative,
                                               "relative", env).specifier)
         == rootSegs + dirSegs + targetSegs
  {
    CorrectedUnderDir(importMap, imp, file, rootSegs, below, dirSegs, targetSegs, shouldResolveRelative, env);
    CorrectedSpecifierResolves(env.cwd, file.filename, rootSegs, below, dirSegs, targetSegs,
                               RewriteImportCorrected(importMap, imp, file, JoinSegs(dirSegs), shouldResolveRelative,
                                                      "relative", env).specifier);
  }

  lemma CorrectedUnderDir(importMap: map<string, string>, imp: string, file: FileOpts,
                          rootSegs: seq<string>, below: seq<string>,
                          dirSegs: seq<string>, targetSegs: seq<string>,
                          shouldResolveRelative: bool, env: Env)
    requires imp in importMap && importMap[imp] == JoinSegs(targetSegs) && !IsRemote(importMap[imp])
    requires AllNormal(rootSegs) && AllNormal(below) && |below| >= 1
    requires file == FileOpts("/" + JoinSegs(rootSegs + below), "/" + JoinSegs(rootSegs))
    requires |targetSegs| >= 1 && AllNormal(targetSegs)
    ensures RewriteImportCorrected(importMap, imp, file, JoinSegs(dirSegs), shouldResolveRelative,
                                   "relative", env).specifier
         == JoinSegs(Ups(|below| - 1)) + Join(["/", JoinSegs(dirSegs), JoinSegs(targetSegs)])
  {
    JoinSegsFirst(targetSegs);
    RelativeModeDepthCorrected(importMap, imp, rootSegs, below, JoinSegs(dirSegs), shouldResolveRelative, env);
  }

  lemma CorrectedSpecifierResolves(cwd: string, filename: string, rootSegs: seq<string>, below: seq<string>,
                                   dirSegs: seq<string>, targetSegs: seq<string>, spec: string)
    requires AllNormal(rootSegs) && AllNormal(below) && |below| >= 2
    requires filename == "/" + JoinSegs(rootSegs + below)
    requires |dirSegs| >= 1 && AllNormal(dirSegs) && |targetSegs| >= 1 && AllNormal(targetSegs)
    requires spec == JoinSegs(Ups(|below| - 1)) + Join(["/", JoinSegs(dirSegs), JoinSegs(targetSegs)])
    ensures ResolveFrom(Resolve(cwd, Dirname(filename)), spec) == rootSegs + dirSegs + targetSegs
  {
    FileDirectoryResolves(cwd, rootSegs, below);
    UpsUnderDirResolves(rootSegs, below[..|below| - 1], dirSegs, targetSegs, spec);
  }

  lemma UpsUnderDirResolves(rootSegs: seq<string>, dirs: seq<string>, dirSegs: seq<string>,
                            targetSegs: seq<string>, spec: string)
    requires AllNormal(rootSegs) && AllNormal(dirs) && |dirs| >= 1
    requires |dirSegs| >= 1 && AllNormal(dirSegs) && |targetSegs| >= 1 && AllNormal(targetSegs)
    requires spec == JoinSegs(Ups(|dirs|)) + Join(["/", JoinSegs(dirSegs), JoinSegs(targetSegs)])
    ensures ResolveFrom(rootSegs + dirs, spec) == rootSegs + dirSegs + targetSegs
  {
    UpsThenJoined(spec, |dirs|, dirSegs, targetSegs);
    MappedUnderRootResolves(rootSegs, dirs, dirSegs + targetSegs, spec);
    SegmentsRegroup(rootSegs, dirSegs, targetSegs);
  }

  lemma SegmentsRegroup(a: seq<string>, b: seq<string>, c: seq<string>)
    ensures a + (b + c) == a + b + c
  {
  }

  lemma UpsThenJoined(spec: string, n: nat, dirSegs: seq<string>, targetSegs: seq<string>)
    requires |dirSegs| >= 1 && AllNormal(dirSegs) && |targetSegs| >= 1 && AllNormal(targetSegs)
    requires spec == JoinSegs(Ups(n)) + Join(["/", JoinSegs(dirSegs), JoinSegs(targetSegs)])
    ensures spec == JoinSegs(Ups(n)) + "/" + JoinSegs(dirSegs + targetSegs)
  {
    JoinUnderDir(dirSegs, targetSegs);
    JoinSegsAppend(dirSegs, targetSegs);
    SlashesRegroup(JoinSegs(Ups(n)), JoinSegs(dirSegs), JoinSegs(targetSegs));
  }

  lemma SlashesRegroup(u: string, d: string, t: string)
    ensures u + ("/" + d + "/" + t) == u + "/" + (d + "/" + t)
  {
  }

  lemma FileDirectoryResolves(cwd: string, rootSegs: seq<string>, below: seq<string>)
    requires AllNormal(rootSegs) && AllNormal(below) && |below| >= 1
    ensures Resolve(cwd, Dirname("/" + JoinSegs(rootSegs + below))) == rootSegs + below[..|below| - 1]
  {
    var segs := rootSegs + below;
    DirnameOfRooted(segs);
    assert segs[..|segs| - 1] == rootSegs + below[..|below| - 1];
    ResolveRooted(cwd, rootSegs + below[..|below| - 1]);
  }

  /** ".." once per directory, then ordinary segments, read from a
      directory below the root: the segments land directly under the root. */
  lemma MappedUnderRootResolves(rootSegs: seq<string>, dirs: seq<string>, rest: seq<string>, spec: string)
    requires AllNormal(rootSegs) && AllNormal(dirs) && |dirs| >= 1 && AllNormal(rest) && |rest| >= 1
    requires spec == JoinSegs(Ups(|dirs|)) + "/" + JoinSegs(rest)
    ensures ResolveFrom(rootSegs + dirs, spec) == rootSegs + rest
  {
    var n := |dirs|;
    var base := rootSegs + dirs;
    assert AllNormal(base);
    assert AllNoSlash(Ups(n));
    SplitJoin(Ups(n));
    SplitJoin(rest);
    SplitConcat(JoinSegs(Ups(n)), JoinSegs(rest));
    JoinSegsFirst(Ups(n) + rest);
    JoinSegsAppend(Ups(n), rest);
    assert !IsAbsolute(spec);
    CanonAppend(base, Ups(n), rest, false);
    CanonUps(base, n);
    assert base[..|base| - n] == rootSegs;
    CanonNormal(rootSegs, rest, false);
  }

  // ---------------------------------------------------------------------
  // Remote, bare and source imports

  /** An unmapped URL is returned unchanged, with no warning. */
  lemma RemoteUnchanged(importMap: map<string, string>, imp: string, file: FileOpts, dir: string,
                        shouldResolveRelative: bool, importType: string, env: Env)
    requires MappedImport(importMap, imp).None? && IsRemote(imp)
    ensures RewriteImport(importMap, imp, file, dir, shouldResolveRelative, importType, env)
         == Outcome(imp, false)
  {
  }

  /** An unmapped bare specifier is returned unchanged, with a warning. */
  lemma BareUnmappedWarned(importMap: map<string, string>, imp: string, file: FileOpts, dir: string,
                           shouldResolveRelative: bool, importType: string, env: Env)
    requires MappedImport(importMap, imp).None? && !IsRemote(imp) && !IsSourceImport(imp)
    ensures RewriteImport(importMap, imp, file, dir, shouldResolveRelative, importType, env)
         == Outcome(imp, true)
  {
  }

  /** With resolution off, an unmapped source import is returned unchanged. */
  lemma SourceUnresolvedUnchanged(importMap: map<string, string>, imp: string, file: FileOpts,
                                  dir: string, importType: string, env: Env)
    requires MappedImport(importMap, imp).None? && IsSourceImport(imp)
    ensures RewriteImport(importMap, imp, file, dir, false, importType, env) == Outcome(imp, false)
  {
    SourceNotRemote(imp);
  }

  /** With resolution on, a source import the resolver cannot find gets
      ".js" appended and a warning. */
  lemma SourceResolutionFails(importMap: map<string, string>, imp: string, file: FileOpts,
                              dir: string, importType: string, env: Env)
    requires MappedImport(importMap, imp).None? && IsSourceImport(imp)
    requires env.resolveOnDisk(Dirname(file.filename), imp).None?
    ensures RewriteImport(importMap, imp, file, dir, true, importType, env) == Outcome(imp + ".js", true)
  {
    SourceNotRemote(imp);
  }

  /** With resolution on, a source import the resolver finds becomes the
      path of that file relative to the importing file's directory, without
      backslashes, without a .ts or .tsx ending, and starting with '.'. The
      only way the `.jsx` pattern can still match the result is the file
      literally named "jsx" next to the importer. */
  lemma SourceResolved(importMap: map<string, string>, imp: string, file: FileOpts,
                       dir: string, importType: string, env: Env, absPath: string)
    requires MappedImport(importMap, imp).None? && IsSourceImport(imp)
    requires env.resolveOnDisk(Dirname(file.filename), imp) == Some(absPath)
    ensures var o := RewriteImport(importMap, imp, file, dir, true, importType, env);
            && !o.warned
            && o.specifier == ResolvedSpecifier(env.cwd, Dirname(file.filename), absPath)
            && Lacks(o.specifier, '\\')
            && !EndsWith(o.specifier, ".ts") && !EndsWith(o.specifier, ".tsx")
            && (ExtMatchLen(o.specifier) > 0 ==> o.specifier == "./jsx")
            && StartsWith(o.specifier, ".")
  {
    SourceNotRemote(imp);
    FinishShape(Relative(env.cwd, Dirname(file.filename), absPath));
  }

  /** The same branch of the corrected rewriter: the specifier now always
      starts with "./" or "../". */
  lemma SourceResolvedCorrected(importMap: map<string, string>, imp: string, file: FileOpts,
                                dir: string, importType: string, env: Env, absPath: string)
    requires MappedImport(importMap, imp).None? && IsSourceImport(imp)
    requires env.resolveOnDisk(Dirname(file.filename), imp) == Some(absPath)
    ensures var o := RewriteImportCorrected(importMap, imp, file, dir, true, importType, env);
            && !o.warned
            && o.specifier == ResolvedSpecifierCorrected(env.cwd, Dirname(file.filename), absPath)
            && Lacks(o.specifier, '\\')
            && !EndsWith(o.specifier, ".ts") && !EndsWith(o.specifier, ".tsx")
            && (ExtMatchLen(o.specifier) > 0 ==> o.specifier == "./jsx")
            && HasRelativeMarker(o.specifier)
  {
    SourceNotRemote(imp);
    FinishCorrectedShape(Relative(env.cwd, Dirname(file.filename), absPath));
  }

  /** The corrected rewriter differs from the one as written in the
      specifier only for a mapped path in relative mode and for a resolved
      source import; it warns in exactly the same cases. */
  lemma CorrectedDiffersOnlyThere(importMap: map<string, string>, imp: string, file: FileOpts,
                                  dir: string, shouldResolveRelative: bool, importType: string,
                                  env: Env)
    ensures RewriteImportCorrected(importMap, imp, file, dir, shouldResolveRelative, importType, env).warned
         == RewriteImport(importMap, imp, file, dir, shouldResolveRelative, importType, env).warned
    ensures (&& !(Classify(importMap, imp).Mapped? && !IsRemote(Classify(importMap, imp).target)
                  && importType == "relative")
             && !(Classify(importMap, imp) == SourceLocal && shouldResolveRelative
                  && env.resolveOnDisk(Dirname(file.filename), imp).Some?))
        ==> (RewriteImportCorrected(importMap, imp, file, dir, shouldResolveRelative, importType, env)
             == RewriteImport(importMap, imp, file, dir, shouldResolveRelative, importType, env))
  {
    if IsSourceImport(imp) {
      SourceNotRemote(imp);
    }
  }

  /** A warning is logged exactly for an unmapped bare name, and for a
      source import that resolution was asked for and could not find. */
  lemma WarnedExactly(importMap: map<string, string>, imp: string, file: FileOpts, dir: string,
                      shouldResolveRelative: bool, importType: string, env: Env)
    ensures RewriteImport(importMap, imp, file, dir, shouldResolveRelative, importType, env).warned
        <==> (|| Classify(importMap, imp) == BareUnmapped
              || (&& Classify(importMap, imp) == SourceLocal && shouldResolveRelative
                  && env.resolveOnDisk(Dirname(file.filename), imp).None?))
  {
    if IsSourceImport(imp) {
      SourceNotRemote(imp);
    }
  }

  /** The specifier comes back unchanged for an unmapped URL, an unmapped
      bare name, and a source import when resolution is off. */
  lemma UnchangedByKind(importMap: map<string, string>, imp: string, file: FileOpts, dir: string,
                        shouldResolveRelative: bool, importType: string, env: Env)
    requires || Classify(importMap, imp) == Remote
             || Classify(importMap, imp) == BareUnmapped
             || (Classify(importMap, imp) == SourceLocal && !shouldResolveRelative)
    ensures RewriteImport(importMap, imp, file, dir, shouldResolveRelative, importType, env).specifier == imp
  {
  }

  /** The resolver is consulted only for an unmapped source import with
      resolution on: otherwise two environments with the same working
      directory give the same outcome. */
  lemma ResolverOnlyForSourceImports(importMap: map<string, string>, imp: string, file: FileOpts,
                                     dir: string, shouldResolveRelative: bool, importType: string,
                                     env1: Env, env2: Env)
    requires env1.cwd == env2.cwd
    requires Classify(importMap, imp) != SourceLocal || !shouldResolveRelative
    ensures RewriteImport(importMap, imp, file, dir, shouldResolveRelative, importType, env1)
         == RewriteImport(importMap, imp, file, dir, shouldResolveRelative, importType, env2)
  {
  }

  /** The output directory and the path style matter only for a mapped
      target that is not a URL. */
  lemma DirOnlyForMappedPaths(importMap: map<string, string>, imp: string, file: FileOpts,
                              dir1: string, dir2: string, shouldResolveRelative: bool,
                              importType1: string, importType2: string, env: Env)
    requires !(Classify(importMap, imp).Mapped? && !IsRemote(Classify(importMap, imp).target))
    ensures RewriteImport(importMap, imp, file, dir1, shouldResolveRelative, importType1, env)
         == RewriteImport(importMap, imp, file, dir2, shouldResolveRelative, importType2, env)
  {
  }

  // ---------------------------------------------------------------------
  // The resolve option, end to end

  /** With `resolve` anything but "node" and no truthy `optionalExtensions`
      (so also with the default "none"), the defaulted options leave every
      unmapped local import untouched and log nothing, as the option's
      documentation at lines 92-93 promises. */
  lemma ResolveNoneLeavesLocalImports(o: PluginOptions.Options, importMap: map<string, string>, imp: string,
                                      file: FileOpts, dir: string, importType: string, env: Env)
    requires o.resolve != PluginOptions.Str("node") && !PluginOptions.Truthy(o.optionalExtensions)
    requires Classify(importMap, imp) == SourceLocal
    ensures RewriteImport(importMap, imp, file, dir, PluginOptions.ApplyDefaults(o).shouldResolveRelative,
                          importType, env)
         == Outcome(imp, false)
  {
    SourceUnresolvedUnchanged(importMap, imp, file, dir, importType, env);
  }

  /** With `resolve: "node"`, or the deprecated truthy `optionalExtensions`,
      every unmapped local import goes through the resolver (lines 94-97):
      a file found becomes its relative specifier, and a miss gets ".js"
      and a warning. */
  lemma ResolveNodeRewritesLocalImports(o: PluginOptions.Options, importMap: map<string, string>,
                                        imp: string, file: FileOpts, dir: string, importType: string,
                                        env: Env)
    requires o.resolve == PluginOptions.Str("node") || PluginOptions.Truthy(o.optionalExtensions)
    requires Classify(importMap, imp) == SourceLocal
    ensures RewriteImport(importMap, imp, file, dir, PluginOptions.ApplyDefaults(o).shouldResolveRelative,
                          importType, env)
         == match env.resolveOnDisk(Dirname(file.filename), imp)
            case Some(absPath) => Outcome(ResolvedSpecifier(env.cwd, Dirname(file.filename), absPath), false)
            case None => Outcome(imp + ".js", true)
  {
  }

  // ---------------------------------------------------------------------
  // Post-processing properties

  /** A string whose character at offset `i` of a `|p|`-long suffix differs
      from `p[i]` does not end with `p`. */
  lemma SuffixDiffersAt(s: string, p: string, i: nat)
    requires |p| <= |s| && i < |p| && s[|s| - |p| + i] != p[i]
    ensures !EndsWith(s, p)
  {
    assert s[|s| - |p|..][i] != p[i];
  }

  /** A string whose first character differs from `p`'s does not start with `p`. */
  lemma PrefixDiffersAtStart(s: string, p: string)
    requires |s| >= 1 && |p| >= 1 && s[0] != p[0]
    ensures !StartsWith(s, p)
  {
    if |p| <= |s| {
      assert s[..|p|][0] != p[0];
    }
  }

  lemma SourceNotRemote(imp: string)
    requires IsSourceImport(imp)
    ensures !IsRemote(imp)
  {
    assert imp[0] == imp[..1][0];
    PrefixDiffersAtStart(imp, "http://");
    PrefixDiffersAtStart(imp, "https://");
  }

  /** A string ending in ".js" is not matched by the pattern. */
  lemma EndsWithJs(s: string)
    requires EndsWith(s, ".js")
    ensures ExtMatchLen(s) == 0 && !EndsWith(s, ".ts") && !EndsWith(s, ".tsx")
  {
    var n := |s|;
    assert s[n - 1] == s[n - 3..][2] && s[n - 2] == s[n - 3..][1];
    if n >= 4 {
      SuffixDiffersAt(s, ".tsx", 3);
    }
    SuffixDiffersAt(s, "jsx", 2);
    SuffixDiffersAt(s, ".ts", 1);
  }

  /** After the extension rewrite the pattern no longer matches, and a
      string it did not match is left alone. */
  lemma ReplaceTsExtClears(s: string)
    ensures ExtMatchLen(ReplaceTsExt(s)) == 0
    ensures ExtMatchLen(s) == 0 ==> ReplaceTsExt(s) == s
    ensures ExtMatchLen(s) > 0 ==> ReplaceTsExt(s) == s[..|s| - ExtMatchLen(s)] + ".js"
  {
    var k := ExtMatchLen(s);
    if k > 0 {
      var pre := s[..|s| - k];
      AppendedJs(pre);
      EndsWithJs(pre + ".js");
    }
  }

  lemma AppendedJs(pre: string)
    ensures EndsWith(pre + ".js", ".js")
  {
    var r := pre + ".js";
    assert r[|r| - 3..] == ".js";
  }

  /** A slash-free suffix of the slashed string was already there before. */
  lemma BackslashSuffix(s: string, p: string)
    requires Lacks(p, '/')
    ensures EndsWith(ReplaceBackslashes(s), p) ==> EndsWith(s, p)
  {
    var r := ReplaceBackslashes(s);
    if EndsWith(r, p) {
      var n := |s|;
      var m := |p|;
      forall i | 0 <= i < m
        ensures s[n - m + i] == p[i]
      {
        assert r[n - m + i] == r[n - m..][i];
      }
      assert s[n - m..] == p;
    }
  }

  /** Turning backslashes into slashes cannot create a match of the pattern:
      none of the characters it looks for is a slash, and a line terminator
      is not a backslash, so it is kept. */
  lemma BackslashesKeepNoMatch(s: string)
    requires ExtMatchLen(s) == 0
    ensures ExtMatchLen(ReplaceBackslashes(s)) == 0
  {
    BackslashSuffix(s, ".tsx");
    BackslashSuffix(s, "jsx");
    BackslashSuffix(s, ".ts");
  }

  /** A path without backslashes is left as it is. */
  lemma BackslashFree(s: string)
    requires Lacks(s, '\\')
    ensures ReplaceBackslashes(s) == s
  {
  }

  /** The corrected prefixing always yields a relative marker and otherwise
      keeps the path. */
  lemma DotPrefixMarksRelative(rel: string)
    ensures HasRelativeMarker(DotPrefix(rel))
    ensures DotPrefix(rel) == rel || DotPrefix(rel) == "./" + rel
    ensures HasRelativeMarker(rel) ==> DotPrefix(rel) == rel
  {
    if !HasRelativeMarker(rel) {
      assert ("./" + rel)[..2] == "./";
    }
  }

  /** A suffix no longer than `x` is the same in `a + x`. */
  lemma SuffixOfConcat(a: string, x: string, p: string)
    requires |p| <= |x|
    ensures EndsWith(a + x, p) == EndsWith(x, p)
  {
    assert (a + x)[|a + x| - |p|..] == x[|x| - |p|..];
  }

  /** For a path of four characters or more, "./" changes nothing the
      pattern looks at. */
  lemma PrefixLongKeepsNoMatch(x: string)
    requires ExtMatchLen(x) == 0 && |x| >= 4
    ensures ExtMatchLen("./" + x) == 0
  {
    SuffixOfConcat("./", x, ".tsx");
    SuffixOfConcat("./", x, "jsx");
    SuffixOfConcat("./", x, ".ts");
    assert ("./" + x)[|"./" + x| - 4] == x[|x| - 4];
  }

  /** For a three-character path the `.jsx` alternative can take the "/"
      of "./" as its first character. */
  lemma PrefixThreeKeepsNoMatch(x: string)
    requires ExtMatchLen(x) == 0 && |x| == 3
    ensures var r := "./" + x;
            && !EndsWith(r, ".ts") && !EndsWith(r, ".tsx")
            && (ExtMatchLen(r) > 0 ==> x == "jsx")
  {
    var r := "./" + x;
    SuffixOfConcat("./", x, "jsx");
    SuffixOfConcat("./", x, ".ts");
    assert r[1] == '/';
    SuffixDiffersAt(r, ".tsx", 0);
  }

  /** A path of two characters or fewer after "./": the "/" sits where
      every alternative needs a letter or a dot. */
  lemma PrefixShortKeepsNoMatch(x: string)
    requires |x| <= 2
    ensures var r := "./" + x;
            && ExtMatchLen(r) == 0 && !EndsWith(r, ".ts") && !EndsWith(r, ".tsx")
  {
    var r := "./" + x;
    assert r[0] == '.' && r[1] == '/';
    if |x| == 2 {
      SuffixDiffersAt(r, ".ts", 0);
      SuffixDiffersAt(r, ".tsx", 1);
      SuffixDiffersAt(r, "jsx", 0);
    } else if |x| == 1 {
      SuffixDiffersAt(r, ".ts", 1);
      SuffixDiffersAt(r, "jsx", 0);
    }
  }

  /** Prefixing "./" to a pattern-free path creates a match only for "jsx". */
  lemma PrefixKeepsNoMatch(x: string)
    requires ExtMatchLen(x) == 0
    ensures var r := "./" + x;
            && !EndsWith(r, ".ts") && !EndsWith(r, ".tsx")
            && (ExtMatchLen(r) > 0 ==> x == "jsx")
  {
    if |x| >= 4 {
      PrefixLongKeepsNoMatch(x);
    } else if |x| == 3 {
      PrefixThreeKeepsNoMatch(x);
    } else {
      PrefixShortKeepsNoMatch(x);
    }
  }

  /** Lines 68-69 leave a path without backslashes that the pattern no
      longer matches. */
  lemma CleanedShape(rel: string)
    ensures var x := ReplaceBackslashes(ReplaceTsExt(rel));
            Lacks(x, '\\') && ExtMatchLen(x) == 0
  {
    ReplaceTsExtClears(rel);
    BackslashesKeepNoMatch(ReplaceTsExt(rel));
  }

  /** "./" brings no backslash. */
  lemma DotSlashLacksBackslash(x: string)
    requires Lacks(x, '\\')
    ensures Lacks("./" + x, '\\')
  {
    forall i | 2 <= i < |"./" + x|
      ensures ("./" + x)[i] != '\\'
    {
      assert ("./" + x)[i] == x[i - 2];
    }
  }

  /** A cleaned path with "./" in front keeps the shape of a cleaned path,
      except that "./jsx" matches the `.jsx` alternative. */
  lemma PrefixedShape(x: string)
    requires Lacks(x, '\\') && ExtMatchLen(x) == 0
    ensures var r := "./" + x;
            && Lacks(r, '\\')
            && !EndsWith(r, ".ts") && !EndsWith(r, ".tsx")
            && (ExtMatchLen(r) > 0 ==> r == "./jsx")
  {
    PrefixKeepsNoMatch(x);
    DotSlashLacksBackslash(x);
  }

  /** Lines 68-70 as written turn every path into a specifier without
      backslashes, without a TypeScript ending, that starts with '.'. */
  lemma FinishShape(rel: string)
    ensures var out := Finish(rel);
            && Lacks(out, '\\')
            && !EndsWith(out, ".ts") && !EndsWith(out, ".tsx")
            && (ExtMatchLen(out) > 0 ==> out == "./jsx")
            && StartsWith(out, ".")
  {
    var x := ReplaceBackslashes(ReplaceTsExt(rel));
    CleanedShape(rel);
    AsWrittenStartsWithDot(x);
    if !StartsWith(x, ".") {
      PrefixedShape(x);
    }
  }

  /** With the corrected line 70 the specifier also starts with "./" or
      "../". */
  lemma FinishCorrectedShape(rel: string)
    ensures var out := FinishCorrected(rel);
            && Lacks(out, '\\')
            && !EndsWith(out, ".ts") && !EndsWith(out, ".tsx")
            && (ExtMatchLen(out) > 0 ==> out == "./jsx")
            && HasRelativeMarker(out)
  {
    var x := ReplaceBackslashes(ReplaceTsExt(rel));
    CleanedShape(rel);
    DotPrefixMarksRelative(x);
    if !HasRelativeMarker(x) {
      PrefixedShape(x);
    }
  }

  /** When the relative path needs no rewriting, the emitted specifier,
      resolved against the importing file's directory, is the file the
      resolver found; this holds for both prefixings, since each emits the
      relative path itself or "./" followed by it. */
  lemma ResolvedSpecifierLeadsToFile(cwd: string, dirOfFile: string, absPath: string)
    requires Lacks(Relative(cwd, dirOfFile, absPath), '\\')
    requires ExtMatchLen(Relative(cwd, dirOfFile, absPath)) == 0
    ensures ResolveFrom(Resolve(cwd, dirOfFile), ResolvedSpecifier(cwd, dirOfFile, absPath))
         == Resolve(cwd, absPath)
    ensures ResolveFrom(Resolve(cwd, dirOfFile), ResolvedSpecifierCorrected(cwd, dirOfFile, absPath))
         == Resolve(cwd, absPath)
  {
    var rel := Relative(cwd, dirOfFile, absPath);
    var base := Resolve(cwd, dirOfFile);
    ReplaceTsExtClears(rel);
    BackslashFree(rel);
    RelativeRoundTrip(cwd, dirOfFile, absPath);
    RelativeNotAbsolute(cwd, dirOfFile, absPath);
    DotSlashIgnored(base, rel);
  }

  /** A leading "./" does not change where a relative path leads. */
  lemma DotSlashIgnored(base: seq<string>, rel: string)
    requires !IsAbsolute(rel)
    ensures ResolveFrom(base, "./" + rel) == ResolveFrom(base, rel)
  {
    SplitConcat(".", rel);
    assert "." + "/" + rel == "./" + rel;
    SplitSmall();
    CanonAppend(base, ["."], Split(rel), false);
    CanonEmptyPiece(base, false);
  }

  // ---------------------------------------------------------------------
  // The dot-directory finding

  /** From a directory to a file below it, `relative` lists the segments
      below. */
  lemma RelativeToDescendant(cwd: string, dirSegs: seq<string>, below: seq<string>)
    requires AllNormal(dirSegs) && AllNormal(below)
    ensures Relative(cwd, "/" + JoinSegs(dirSegs), "/" + JoinSegs(dirSegs + below)) == JoinSegs(below)
  {
    ResolveRooted(cwd, dirSegs + below);
    ResolveRooted(cwd, dirSegs);
    var t := dirSegs + below;
    assert t[..|dirSegs|] == dirSegs;
    CommonPrefixOfPrefix(t, |dirSegs|);
    assert t[|dirSegs|..] == below;
    assert Ups(0) + below == below;
  }

  /** The segments of /p and of /p/.storybook/util.js. */
  lemma StorybookSegments(root: seq<string>, below: seq<string>)
    requires root == ["p"] && below == [".storybook", "util.js"]
    ensures AllNormal(root) && AllNormal(below)
    ensures "/" + JoinSegs(root) == "/p"
    ensures "/" + JoinSegs(root + below) == "/p/.storybook/util.js"
    ensures JoinSegs(below) == ".storybook/util.js"
  {
    TwoSegments(below, ".storybook", "util.js");
    StorybookBelowSpelled(".storybook", "util.js");
    assert Normal(root[0]) && Normal(below[0]) && Normal(below[1]);
    ExampleRootedJoin(root, below, "p", ".storybook/util.js");
    StorybookFileSpelled("/", "p", ".storybook/util.js");
  }

  lemma TwoSegments(segs: seq<string>, a: string, b: string)
    requires segs == [a, b]
    ensures JoinSegs(segs) == a + "/" + b
  {
    assert segs[1..] == [b];
  }

  lemma StorybookBelowSpelled(a: string, b: string)
    requires a == ".storybook" && b == "util.js"
    ensures a + "/" + b == ".storybook/util.js"
  {
  }

  lemma StorybookFileSpelled(slash: string, r: string, b: string)
    requires slash == "/" && r == "p" && b == ".storybook/util.js"
    ensures slash + (r + "/" + b) == "/p/.storybook/util.js" && slash + r == "/p"
  {
  }

  /** The path from /p to /p/.storybook/util.js. */
  lemma StorybookRelative(cwd: string)
    ensures Relative(cwd, "/p", "/p/.storybook/util.js") == ".storybook/util.js"
  {
    var root: seq<string> := ["p"];
    var below: seq<string> := [".storybook", "util.js"];
    StorybookSegments(root, below);
    RelativeToDescendant(cwd, root, below);
  }

  /** The relative path ".storybook/util.js" is left alone by lines 68-69. */
  lemma StorybookUnrewritten()
    ensures ReplaceBackslashes(ReplaceTsExt(".storybook/util.js")) == ".storybook/util.js"
  {
    var rel := ".storybook/util.js";
    EndsWithJs(rel);
    ReplaceTsExtClears(rel);
    assert Lacks(rel, '\\');
    BackslashFree(rel);
  }

  /** ".storybook/util.js" starts with a dot but not with "./" or "../". */
  lemma StorybookUnmarked()
    ensures StartsWith(".storybook/util.js", ".")
    ensures !HasRelativeMarker(".storybook/util.js")
  {
    var rel := ".storybook/util.js";
    assert rel[1] == 's';
    assert rel[..2][1] == rel[1];
    assert rel[..3][1] == rel[1];
  }

  /** The specifier as written for /p/.storybook/util.js seen from /p. */
  lemma StorybookAsWritten(cwd: string)
    ensures ResolvedSpecifier(cwd, "/p", "/p/.storybook/util.js") == ".storybook/util.js"
  {
    StorybookRelative(cwd);
    StorybookUnrewritten();
    StorybookUnmarked();
    PrefixingOfUnrewritten(cwd, "/p", "/p/.storybook/util.js", ".storybook/util.js");
  }

  /** The corrected specifier for the same file is the corrected prefixing
      of ".storybook/util.js". */
  lemma StorybookCorrected(cwd: string)
    ensures ResolvedSpecifierCorrected(cwd, "/p", "/p/.storybook/util.js") == DotPrefix(".storybook/util.js")
  {
    StorybookRelative(cwd);
    StorybookUnrewritten();
    PrefixingOfUnrewritten(cwd, "/p", "/p/.storybook/util.js", ".storybook/util.js");
  }

  lemma StorybookPrefixed(rel: string, out: string)
    requires rel == ".storybook/util.js" && out == "./.storybook/util.js"
    ensures DotPrefix(rel) == out && HasRelativeMarker(out)
  {
    StorybookUnmarked();
    assert DotPrefix(rel) == "./" + rel;
    assert "./" + rel == out;
    DotPrefixMarksRelative(rel);
  }

  /** The directory of /p/App.js is /p. */
  lemma StorybookImporterDir(f: string, root: seq<string>, name: string)
    requires f == "/p/App.js" && root == ["p"] && name == "App.js"
    ensures Dirname(f) == "/p"
  {
    assert Normal(root[0]) && Normal(name);
    SiblingDirname(root, name);
    RootedAppend(root, name);
    OneSegment(root[0]);
    ImporterSpelled("/", root[0], name);
  }

  lemma ImporterSpelled(slash: string, r: string, name: string)
    requires slash == "/" && r == "p" && name == "App.js"
    ensures slash + r + "/" + name == "/p/App.js" && slash + r == "/p"
  {
  }

  /** As written, line 70 leaves the path into a dot-directory without a
      relative marker: "./.storybook/util" imported from /p/App.js and found
      at /p/.storybook/util.js comes out as ".storybook/util.js", which a
      module loader reads as a bare package name. */
  lemma DotPrefixAsWrittenKeepsDotDirectory(imp: string, file: FileOpts, env: Env)
    requires imp == "./.storybook/util" && file.filename == "/p/App.js"
    requires env.resolveOnDisk("/p", imp) == Some("/p/.storybook/util.js")
    ensures RewriteImport(map[], imp, file, "web_modules", true, "absolute", env)
         == Outcome(".storybook/util.js", false)
    ensures !HasRelativeMarker(".storybook/util.js")
  {
    var p: seq<string> := ["p"];
    StorybookImporterDir(file.filename, p, "App.js");
    assert imp[..1] == ".";
    SourceResolved(map[], imp, file, "web_modules", "absolute", env, "/p/.storybook/util.js");
    StorybookAsWritten(env.cwd);
    StorybookUnmarked();
  }

  /** The corrected rewriter gives "./.storybook/util.js" for the same
      import. */
  lemma DotPrefixMarksDotDirectory(imp: string, file: FileOpts, env: Env)
    requires imp == "./.storybook/util" && file.filename == "/p/App.js"
    requires env.resolveOnDisk("/p", imp) == Some("/p/.storybook/util.js")
    ensures RewriteImportCorrected(map[], imp, file, "web_modules", true, "absolute", env)
         == Outcome("./.storybook/util.js", false)
    ensures HasRelativeMarker("./.storybook/util.js")
  {
    var p: seq<string> := ["p"];
    StorybookImporterDir(file.filename, p, "App.js");
    assert imp[..1] == ".";
    SourceResolvedCorrected(map[], imp, file, "web_modules", "absolute", env, "/p/.storybook/util.js");
    StorybookCorrected(env.cwd);
    StorybookPrefixed(".storybook/util.js", "./.storybook/util.js");
  }

  /** Where lines 68-69 leave the relative path alone, only line 70 acts. */
  lemma PrefixingOfUnrewritten(cwd: string, dirOfFile: string, absPath: string, rel: string)
    requires Relative(cwd, dirOfFile, absPath) == rel
    requires ReplaceBackslashes(ReplaceTsExt(rel)) == rel
    ensures ResolvedSpecifier(cwd, dirOfFile, absPath) == DotPrefixAsWritten(rel)
    ensures ResolvedSpecifierCorrected(cwd, dirOfFile, absPath) == DotPrefix(rel)
  {
  }

  // ---------------------------------------------------------------------
  // Worked cases
  //
  // The small "Spelled" lemmas, here and in the dot-directory section
  // above, take the literal strings of a worked case as
  // parameters fixed by their `requires`, and state only how those pieces
  // concatenate. This keeps string literals out of the arguments of the
  // recursive path functions, which the verifier would otherwise unfold
  // character by character.

  /** A slash-free name carries no relative marker. */
  lemma NoSlashUnmarked(x: string)
    requires NoSlash(x)
    ensures !HasRelativeMarker(x)
  {
    if |x| >= 2 {
      assert x[..2][1] == x[1];
    }
    if |x| >= 3 {
      assert x[..3][2] == x[2];
    }
  }

  /** The line 70 as written always yields a path starting with '.'. */
  lemma AsWrittenStartsWithDot(rel: string)
    ensures StartsWith(DotPrefixAsWritten(rel), ".")
  {
    if !StartsWith(rel, ".") {
      assert ("./" + rel)[..1] == ".";
    }
  }

  lemma SiblingDirname(dirSegs: seq<string>, fileName: string)
    requires |dirSegs| >= 1 && AllNormal(dirSegs) && Normal(fileName)
    ensures Dirname("/" + JoinSegs(dirSegs + [fileName])) == "/" + JoinSegs(dirSegs)
  {
    var segs := dirSegs + [fileName];
    assert segs[..|segs| - 1] == dirSegs;
    DirnameDropsLast("/", segs);
  }

  lemma SiblingRelative(cwd: string, dirSegs: seq<string>, name: string)
    requires AllNormal(dirSegs) && Normal(name)
    ensures Relative(cwd, "/" + JoinSegs(dirSegs), "/" + JoinSegs(dirSegs + [name])) == name
  {
    var single: seq<string> := [name];
    RelativeToDescendant(cwd, dirSegs, single);
    assert JoinSegs(single) == name;
  }

  /** A name ending in ".ts" gets ".js" in its place. */
  lemma TsExtReplaced(base: string)
    ensures ReplaceTsExt(base + ".ts") == base + ".js"
  {
    var name := base + ".ts";
    var n := |name|;
    assert name[n - 3..] == ".ts";
    assert name[n - 1] == 's';
    SuffixDiffersAt(name, "jsx", 2);
    if n >= 4 {
      SuffixDiffersAt(name, ".tsx", 3);
    }
    assert name[..n - 3] == base;
  }

  /** A ".js" name with neither slashes nor backslashes is left alone by
      line 69 and gets "./" from the corrected line 70. */
  lemma PlainJsName(base: string)
    requires NoSlash(base) && Lacks(base, '\\')
    ensures ReplaceBackslashes(base + ".js") == base + ".js"
    ensures DotPrefix(base + ".js") == "./" + base + ".js"
  {
    var js := base + ".js";
    forall i | 0 <= i < |js|
      ensures js[i] != '\\' && js[i] != '/'
    {
      if i < |base| {
        assert js[i] == base[i];
      }
    }
    BackslashFree(js);
    NoSlashUnmarked(js);
  }

  /** A ".ts" name becomes the ".js" name; as written it gets "./" unless it
      starts with a dot, and corrected it always gets "./". */
  lemma TsFinish(base: string)
    requires Normal(base + ".ts") && Lacks(base, '\\')
    ensures Finish(base + ".ts") == DotPrefixAsWritten(base + ".js")
    ensures FinishCorrected(base + ".ts") == "./" + base + ".js"
  {
    assert NoSlash(base) by {
      forall i | 0 <= i < |base| ensures base[i] != '/' {
        assert base[i] == (base + ".ts")[i];
      }
    }
    TsExtReplaced(base);
    PlainJsName(base);
  }

  /** The TypeScript file next to the importer: `base + ".ts"` found in the
      importer's own directory is imported as "./" + base + ".js", except
      that as written it loses the "./" when base + ".js" starts with a dot:
      a name such as ".config.ts", or the bare ".ts". */
  lemma ResolvedSiblingTs(importMap: map<string, string>, imp: string, dirSegs: seq<string>,
                          fileName: string, root: string, base: string, dir: string,
                          importType: string, env: Env)
    requires MappedImport(importMap, imp).None? && IsSourceImport(imp)
    requires |dirSegs| >= 1 && AllNormal(dirSegs) && Normal(fileName) && Normal(base + ".ts")
    requires Lacks(base, '\\')
    requires env.resolveOnDisk("/" + JoinSegs(dirSegs), imp) == Some("/" + JoinSegs(dirSegs + [base + ".ts"]))
    ensures RewriteImport(importMap, imp, FileOpts("/" + JoinSegs(dirSegs + [fileName]), root),
                          dir, true, importType, env)
         == Outcome(if StartsWith(base + ".js", ".") then base + ".js" else "./" + base + ".js", false)
    ensures RewriteImportCorrected(importMap, imp, FileOpts("/" + JoinSegs(dirSegs + [fileName]), root),
                                   dir, true, importType, env)
         == Outcome("./" + base + ".js", false)
  {
    SiblingDirname(dirSegs, fileName);
    SiblingRelative(env.cwd, dirSegs, base + ".ts");
    SourceNotRemote(imp);
    TsFinish(base);
  }

  lemma OneSegment(x: string)
    ensures JoinSegs([x]) == x
  {
  }

  /** The names the worked cases use are ordinary segments, and the
      targets are not URLs. */
  lemma ExampleNames(dir: string, target: string)
    requires dir == "web_modules" && (target == "foo.js" || target == "bar-1.0.0.js")
    ensures Normal(dir) && Normal(target) && !IsRemote(target)
  {
    PrefixDiffersAtStart(target, "http://");
    PrefixDiffersAtStart(target, "https://");
  }

  /** A one-segment target under a one-segment `dir` outside relative mode. */
  lemma MappedOneSegment(imp: string, dir: string, target: string, file: FileOpts,
                         shouldResolveRelative: bool, env: Env)
    requires Normal(dir) && Normal(target) && !IsRemote(target)
    ensures RewriteImport(map[imp := target], imp, file, dir, shouldResolveRelative, "absolute", env)
         == Outcome("/" + dir + "/" + target, false)
  {
    var d: seq<string> := [dir];
    var t: seq<string> := [target];
    OneSegment(dir);
    OneSegment(target);
    MappedAbsoluteUnderDir(map[imp := target], imp, file, d, t, shouldResolveRelative, "absolute", env);
  }

  /** With `dir = "web_modules"` outside relative mode, "foo" mapped to
      "foo.js" becomes "/web_modules/foo.js"; a path-like specifier with an
      entry takes the mapped branch too, whether resolution is on or off:
      "/foo" mapped to "bar-1.0.0.js" becomes "/web_modules/bar-1.0.0.js". */
  lemma ExampleMappedAbsolute(dir: string, imp: string, target: string, file: FileOpts,
                              shouldResolveRelative: bool, env: Env)
    requires dir == "web_modules"
    requires (imp == "foo" && target == "foo.js") || (imp == "/foo" && target == "bar-1.0.0.js")
    ensures imp == "foo" ==>
              RewriteImport(map[imp := target], imp, file, dir, shouldResolveRelative, "absolute", env)
              == Outcome("/web_modules/foo.js", false)
    ensures imp == "/foo" ==>
              RewriteImport(map[imp := target], imp, file, dir, shouldResolveRelative, "absolute", env)
              == Outcome("/web_modules/bar-1.0.0.js", false)
  {
    ExampleNames(dir, target);
    MappedOneSegment(imp, dir, target, file, shouldResolveRelative, env);
    ExampleMappedSpelled(dir, target);
  }

  lemma ExampleMappedSpelled(dir: string, target: string)
    requires dir == "web_modules" && (target == "foo.js" || target == "bar-1.0.0.js")
    ensures target == "foo.js" ==> "/" + dir + "/" + target == "/web_modules/foo.js"
    ensures target == "bar-1.0.0.js" ==> "/" + dir + "/" + target == "/web_modules/bar-1.0.0.js"
  {
  }

  /** Relative mode for src/components/App.js under the root /p, run from
      /home/u/p: line 46 counts three segments below the root (the file name
      too), so three ".." lead to the output directory. */
  lemma ExampleRelativeDepth(dir: string, target: string, file: FileOpts, shouldResolveRelative: bool,
                             env: Env)
    requires dir == "web_modules" && target == "foo.js"
    requires file == FileOpts("/p/src/components/App.js", "/p") && env.cwd == "/home/u/p"
    ensures RewriteImport(map["foo" := target], "foo", file, dir, shouldResolveRelative, "relative", env).specifier
         == "../../../web_modules/foo.js"
  {
    ExampleRelativeDepthCount(dir, target, file, shouldResolveRelative, env);
    ExampleRelativeSpelled(dir, target,
      RewriteImport(map["foo" := target], "foo", file, dir, shouldResolveRelative, "relative", env).specifier);
  }

  /** The same file with lines 46-47 corrected: two directories lie between
      the root and App.js, so two ".." lead to the output directory. */
  lemma ExampleRelativeDepthCorrected(dir: string, target: string, file: FileOpts,
                                      shouldResolveRelative: bool, env: Env)
    requires dir == "web_modules" && target == "foo.js"
    requires file == FileOpts("/p/src/components/App.js", "/p") && env.cwd == "/home/u/p"
    ensures RewriteImportCorrected(map["foo" := target], "foo", file, dir, shouldResolveRelative,
                                   "relative", env).specifier
         == "../../web_modules/foo.js"
  {
    var rootSegs: seq<string> := ["p"];
    var below: seq<string> := ["src", "components", "App.js"];
    ExampleNames(dir, target);
    ExampleFilePaths(file, rootSegs, below);
    RelativeModeDepthCorrected(map["foo" := target], "foo", rootSegs, below, dir, shouldResolveRelative, env);
    ExampleJoinedImport(dir, target);
    ExampleTwoUps();
    ExampleTwoUpsSpelled("../..", "/web_modules/foo.js");
  }

  /** Line 47 resolves the climb a second time, against the working
      directory, where it stops at the file-system root. Run from /app,
      App.js in /app/src/components under the root /app gets a single ".."
      where two lead to the output directory. */
  lemma ExampleShallowCwd(dir: string, target: string, file: FileOpts, shouldResolveRelative: bool,
                          env: Env)
    requires dir == "web_modules" && target == "foo.js"
    requires file == FileOpts("/app/src/components/App.js", "/app") && env.cwd == "/app"
    ensures RewriteImport(map["foo" := target], "foo", file, dir, shouldResolveRelative, "relative", env).specifier
         == "../web_modules/foo.js"
  {
    var rootSegs: seq<string> := ["app"];
    var below: seq<string> := ["src", "components", "App.js"];
    ExampleNames(dir, target);
    ExampleAppFilePaths(file, rootSegs, below);
    ExampleAppCwdDepth(env.cwd);
    RelativeModeDepth(map["foo" := target], "foo", rootSegs, below, dir, shouldResolveRelative, env);
    ExampleJoinedImport(dir, target);
    ExampleOneUp();
    ExampleOneUpSpelled("..", "/web_modules/foo.js");
  }

  /** With lines 46-47 corrected the same file gets two ".." whatever the
      working directory. */
  lemma ExampleShallowCwdCorrected(dir: string, target: string, file: FileOpts, shouldResolveRelative: bool,
                                   env: Env)
    requires dir == "web_modules" && target == "foo.js"
    requires file == FileOpts("/app/src/components/App.js", "/app") && env.cwd == "/app"
    ensures RewriteImportCorrected(map["foo" := target], "foo", file, dir, shouldResolveRelative,
                                   "relative", env).specifier
         == "../../web_modules/foo.js"
  {
    var rootSegs: seq<string> := ["app"];
    var below: seq<string> := ["src", "components", "App.js"];
    ExampleNames(dir, target);
    ExampleAppFilePaths(file, rootSegs, below);
    RelativeModeDepthCorrected(map["foo" := target], "foo", rootSegs, below, dir, shouldResolveRelative, env);
    ExampleJoinedImport(dir, target);
    ExampleTwoUps();
    ExampleTwoUpsSpelled("../..", "/web_modules/foo.js");
  }

  lemma ExampleAppFilePaths(file: FileOpts, rootSegs: seq<string>, below: seq<string>)
    requires file == FileOpts("/app/src/components/App.js", "/app")
    requires rootSegs == ["app"] && below == ["src", "components", "App.js"]
    ensures AllNormal(rootSegs) && AllNormal(below) && |below| == 3
    ensures file == FileOpts("/" + JoinSegs(rootSegs + below), "/" + JoinSegs(rootSegs))
  {
    ExampleBelowNormal(below);
    ExampleRootedJoin(rootSegs, below, "app", "src/components/App.js");
    ExampleAppFileSpelled("/", "app", "src/components/App.js");
  }

  lemma ExampleAppFileSpelled(slash: string, r: string, b: string)
    requires slash == "/" && r == "app" && b == "src/components/App.js"
    ensures slash + (r + "/" + b) == "/app/src/components/App.js" && slash + r == "/app"
  {
  }

  lemma ExampleAppCwdDepth(cwd: string)
    requires cwd == "/app"
    ensures |CwdSegments(cwd)| == 1
  {
    var segs: seq<string> := ["app"];
    assert AllNormal(segs);
    OneSegment("app");
    assert cwd == "/" + JoinSegs(segs);
    ResolveRooted(cwd, segs);
    assert CwdSegments(cwd) == Resolve(cwd, cwd);
  }

  lemma ExampleOneUp()
    ensures JoinSegs(Ups(Min(3, 1))) == ".."
  {
    assert Ups(1) == [".."];
    OneSegment("..");
  }

  lemma ExampleOneUpSpelled(ups: string, joined: string)
    requires ups == ".." && joined == "/web_modules/foo.js"
    ensures ups + joined == "../web_modules/foo.js"
  {
  }

  lemma ExampleTwoUps()
    ensures JoinSegs(Ups(2)) == "../.."
  {
    var ups := Ups(2);
    assert ups == ["..", ".."];
    TwoSegments(ups, "..", "..");
  }

  lemma ExampleTwoUpsSpelled(ups: string, joined: string)
    requires ups == "../.." && joined == "/web_modules/foo.js"
    ensures ups + joined == "../../web_modules/foo.js"
  {
  }

  lemma ExampleRelativeDepthCount(dir: string, target: string, file: FileOpts, shouldResolveRelative: bool,
                                  env: Env)
    requires dir == "web_modules" && target == "foo.js"
    requires file == FileOpts("/p/src/components/App.js", "/p") && env.cwd == "/home/u/p"
    ensures RewriteImport(map["foo" := target], "foo", file, dir, shouldResolveRelative, "relative", env).specifier
         == JoinSegs(Ups(Min(3, 3))) + Join(["/", dir, target])
  {
    var rootSegs: seq<string> := ["p"];
    var below: seq<string> := ["src", "components", "App.js"];
    ExampleNames(dir, target);
    ExampleFilePaths(file, rootSegs, below);
    ExampleCwdDepth(env.cwd);
    RelativeModeDepth(map["foo" := target], "foo", rootSegs, below, dir, shouldResolveRelative, env);
  }

  lemma ExampleRelativeSpelled(dir: string, target: string, specifier: string)
    requires dir == "web_modules" && target == "foo.js"
    requires specifier == JoinSegs(Ups(Min(3, 3))) + Join(["/", dir, target])
    ensures specifier == "../../../web_modules/foo.js"
  {
    ExampleJoinedImport(dir, target);
    ExampleThreeUps();
  }

  lemma ExampleFilePaths(file: FileOpts, rootSegs: seq<string>, below: seq<string>)
    requires file == FileOpts("/p/src/components/App.js", "/p")
    requires rootSegs == ["p"] && below == ["src", "components", "App.js"]
    ensures AllNormal(rootSegs) && AllNormal(below) && |below| == 3
    ensures file == FileOpts("/" + JoinSegs(rootSegs + below), "/" + JoinSegs(rootSegs))
  {
    ExampleBelowNormal(below);
    ExampleRootedJoin(rootSegs, below, "p", "src/components/App.js");
    ExampleFileSpelled("/", "p", "src/components/App.js");
  }

  lemma ExampleRootedJoin(rootSegs: seq<string>, below: seq<string>, r: string, b: string)
    requires rootSegs == [r] && Normal(r) && |below| >= 1 && JoinSegs(below) == b
    ensures JoinSegs(rootSegs) == r && JoinSegs(rootSegs + below) == r + "/" + b
  {
    OneSegment(r);
    JoinSegsAppend(rootSegs, below);
  }

  lemma ExampleFileSpelled(slash: string, r: string, b: string)
    requires slash == "/" && r == "p" && b == "src/components/App.js"
    ensures slash + (r + "/" + b) == "/p/src/components/App.js" && slash + r == "/p"
  {
  }

  lemma ExampleBelowNormal(below: seq<string>)
    requires below == ["src", "components", "App.js"]
    ensures AllNormal(below) && |below| == 3 && JoinSegs(below) == "src/components/App.js"
  {
    ExampleBelowSegments(below, "src", "components", "App.js");
    ExampleBelowSpelled("src", "components", "App.js");
  }

  lemma ExampleBelowSegments(below: seq<string>, a: string, b: string, c: string)
    requires below == [a, b, c] && Normal(a) && Normal(b) && Normal(c)
    ensures AllNormal(below) && |below| == 3 && JoinSegs(below) == a + ("/" + (b + "/" + c))
  {
    JoinSegsThree(a, b, c);
  }

  lemma ExampleBelowSpelled(a: string, b: string, c: string)
    requires a == "src" && b == "components" && c == "App.js"
    ensures a + ("/" + (b + "/" + c)) == "src/components/App.js"
  {
  }

  lemma ExampleCwdDepth(cwd: string)
    requires cwd == "/home/u/p"
    ensures |CwdSegments(cwd)| == 3
  {
    var segs: seq<string> := ["home", "u", "p"];
    assert AllNormal(segs);
    JoinSegsThree("home", "u", "p");
    assert cwd == "/" + JoinSegs(segs);
    ResolveRooted(cwd, segs);
    assert CwdSegments(cwd) == Resolve(cwd, cwd);
  }

  lemma ExampleJoinedImport(dir: string, target: string)
    requires dir == "web_modules" && target == "foo.js"
    ensures Join(["/", dir, target]) == "/web_modules/foo.js"
  {
    ExampleNames(dir, target);
    JoinedUnderOneDir(dir, target);
    ExampleMappedSpelled(dir, target);
  }

  lemma JoinedUnderOneDir(dir: string, target: string)
    requires Normal(dir) && Normal(target)
    ensures Join(["/", dir, target]) == "/" + dir + "/" + target
  {
    var d: seq<string> := [dir];
    var t: seq<string> := [target];
    JoinUnderDir(d, t);
  }

  lemma ExampleThreeUps()
    ensures JoinSegs(Ups(Min(3, 3))) == "../../.."
  {
    assert Ups(3) == ["..", "..", ".."];
    JoinSegsThree("..", "..", "..");
  }

  lemma RootedAppend(dirSegs: seq<string>, x: string)
    requires |dirSegs| >= 1
    ensures "/" + JoinSegs(dirSegs + [x]) == "/" + JoinSegs(dirSegs) + "/" + x
  {
    OneSegment(x);
    JoinSegsAppend(dirSegs, [x]);
    PrefixJoinAssoc("/", JoinSegs(dirSegs), x);
  }

  lemma ExampleSrcDir(dirSegs: seq<string>)
    requires dirSegs == ["p", "src"]
    ensures "/" + JoinSegs(dirSegs) == "/p/src"
  {
    assert dirSegs[1..] == ["src"];
  }

  lemma ExampleSrcNormal(dirSegs: seq<string>)
    requires dirSegs == ["p", "src"]
    ensures |dirSegs| >= 1 && AllNormal(dirSegs)
  {
    assert Normal(dirSegs[0]) && Normal(dirSegs[1]);
  }

  /** A file directly in /p/src. */
  lemma ExampleSrcFile(dirSegs: seq<string>, x: string)
    requires dirSegs == ["p", "src"]
    ensures "/" + JoinSegs(dirSegs + [x]) == "/p/src" + "/" + x
  {
    ExampleSrcDir(dirSegs);
    RootedAppend(dirSegs, x);
  }

  /** With resolution on, "./util" imported from /p/src/App.js and found at
      /p/src/util.ts becomes "./util.js". */
  lemma ExampleResolvedTs(imp: string, file: FileOpts, env: Env)
    requires imp == "./util" && file.filename == "/p/src/App.js"
    requires env.resolveOnDisk("/p/src", imp) == Some("/p/src/util.ts")
    ensures RewriteImport(map[], imp, file, "web_modules", true, "absolute", env)
         == Outcome("./util.js", false)
    ensures RewriteImportCorrected(map[], imp, file, "web_modules", true, "absolute", env)
         == Outcome("./util.js", false)
  {
    ExampleImporterPath(file);
    ExampleResolvedPath(imp, env);
    ExampleResolvedTsSegments(imp, ["p", "src"], file, env);
    ExampleJsName("./" + "util" + ".js");
  }

  lemma ExampleImporterPath(file: FileOpts)
    requires file.filename == "/p/src/App.js"
    ensures file.filename == "/" + JoinSegs(["p", "src"] + ["App.js"])
  {
    var dirSegs: seq<string> := ["p", "src"];
    ExampleSrcFile(dirSegs, "App.js");
    assert "/p/src" + "/" + "App.js" == "/p/src/App.js";
  }

  lemma ExampleResolvedPath(imp: string, env: Env)
    requires env.resolveOnDisk("/p/src", imp) == Some("/p/src/util.ts")
    ensures env.resolveOnDisk("/" + JoinSegs(["p", "src"]), imp)
         == Some("/" + JoinSegs(["p", "src"] + ["util" + ".ts"]))
  {
    var dirSegs: seq<string> := ["p", "src"];
    ExampleSrcDir(dirSegs);
    ExampleSrcFile(dirSegs, "util" + ".ts");
    assert "/p/src" + "/" + ("util" + ".ts") == "/p/src/util.ts";
  }

  lemma ExampleJsName(x: string)
    requires x == "./" + "util" + ".js"
    ensures x == "./util.js"
  {
  }

  lemma ExampleResolvedTsSegments(imp: string, dirSegs: seq<string>, file: FileOpts, env: Env)
    requires imp == "./util" && dirSegs == ["p", "src"]
    requires file.filename == "/" + JoinSegs(dirSegs + ["App.js"])
    requires env.resolveOnDisk("/" + JoinSegs(dirSegs), imp) == Some("/" + JoinSegs(dirSegs + ["util" + ".ts"]))
    ensures RewriteImport(map[], imp, file, "web_modules", true, "absolute", env)
         == Outcome("./" + "util" + ".js", false)
    ensures RewriteImportCorrected(map[], imp, file, "web_modules", true, "absolute", env)
         == Outcome("./" + "util" + ".js", false)
  {
    ExampleSrcNormal(dirSegs);
    assert ("util" + ".js")[0] == 'u';
    PrefixDiffersAtStart("util" + ".js", ".");
    assert Normal("App.js") && Normal("util" + ".ts");
    assert imp[..1] == ".";
    assert file == FileOpts("/" + JoinSegs(dirSegs + ["App.js"]), file.root);
    ResolvedSiblingTs(map[], imp, dirSegs, "App.js", file.root, "util", "web_modules", "absolute", env);
  }

  /** With resolution on, "./missing" that the resolver cannot find becomes
      "./missing.js", with a warning. */
  lemma ExampleMissing(file: FileOpts, env: Env)
    requires env.resolveOnDisk(Dirname(file.filename), "./missing").None?
    ensures RewriteImport(map[], "./missing", file, "web_modules", true, "absolute", env)
         == Outcome("./missing.js", true)
  {
    assert "./missing"[..1] == ".";
    SourceResolutionFails(map[], "./missing", file, "web_modules", "absolute", env);
  }

  /** A bare "some-pkg" with an empty mapping is kept, with a warning. */
  lemma ExampleBare(file: FileOpts, shouldResolveRelative: bool, env: Env)
    ensures RewriteImport(map[], "some-pkg", file, "web_modules", shouldResolveRelative, "absolute", env)
         == Outcome("some-pkg", true)
  {
    var s := "some-pkg";
    PrefixDiffersAtStart(s, "http://");
    PrefixDiffersAtStart(s, "https://");
    PrefixDiffersAtStart(s, "/");
    PrefixDiffersAtStart(s, ".");
    PrefixDiffersAtStart(s, "\\");
  }

  /** With resolution off, "./util" is kept as it is. */
  lemma ExampleUnresolved(file: FileOpts, env: Env)
    ensures RewriteImport(map[], "./util", file, "web_modules", false, "absolute", env)
         == Outcome("./util", false)
  {
    assert "./util"[..1] == ".";
    SourceUnresolvedUnchanged(map[], "./util", file, "web_modules", "absolute", env);
  }
}
