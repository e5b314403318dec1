/** Where the plugin looks for the import map (`readImportMapFile` in
    assets/babel-plugin.js). The file system is a table from absolute paths,
    as segment lists, to file contents, so that "/a/./b" and "/a/b" are the
    same file; a path missing from the table is any read that throws. */
module ImportMapFile {
  import opened Common
  import opened PosixPath
  import opened PluginOptions

  /** The working directory (`process.cwd()`) and the readable files. */
  datatype Disk = Disk(cwd: string, files: map<seq<string>, string>)

  datatype ReadError =
    | PathNotString                                 // `path.isAbsolute` rejects a non-string
    | FileUnreadable(path: string)                  // `fs.readFileSync` threw for an explicit path
    | ImportMapNotFound(localPath: string, defaultPath: string)

  /** `fs.readFileSync(p, {encoding: 'utf8'})`: a relative `p` is read from
      the working directory. */
  function ReadFile(disk: Disk, p: string): Option<string>
  {
    var key := Resolve(disk.cwd, p);
    if key in disk.files then Some(disk.files[key]) else None
  }

  const LocalName := "import-map.local.json"
  const DefaultName := "import-map.json"

  function LocalPath(cwd: string, dir: string): string
  {
    Join([cwd, dir, LocalName])
  }

  function DefaultPath(cwd: string, dir: string): string
  {
    Join([cwd, dir, DefaultName])
  }

  /** The file an explicit `importMap` option names: an absolute path as it
      is, a relative one under the working directory and `dir`. */
  function ExplicitPath(cwd: string, dir: string, p: string): string
  {
    if IsAbsolute(p) then p else Join([cwd, dir, p])
  }

  /** `readImportMapFile(explicitPath, dir)`. Whatever it returns is the
      contents of some file. */
  function ReadImportMapFile(disk: Disk, explicitPath: Value, dir: string): (r: Result<string, ReadError>)
    ensures r.Ok? ==> r.value in disk.files.Values
  {
    if Truthy(explicitPath) then
      match explicitPath
      case Str(p) =>
        var target := ExplicitPath(disk.cwd, dir, p);
        (match ReadFile(disk, target)
         case Some(contents) => Ok(contents)
         case None => Err(FileUnreadable(target)))
      case _ => Err(PathNotString)
    else
      var localImportMap := LocalPath(disk.cwd, dir);
      var defaultImportMap := DefaultPath(disk.cwd, dir);
      match ReadFile(disk, localImportMap)
      case Some(contents) => Ok(contents)
      case None =>
        match ReadFile(disk, defaultImportMap)
        case Some(contents) => Ok(contents)
        case None => Err(ImportMapNotFound(localImportMap, defaultImportMap))
  }

  // ---------------------------------------------------------------------
  // Which file is read

  /** The two disks hold the same file, or both lack it, at `key`. */
  predicate AgreeOn(disk1: Disk, disk2: Disk, key: seq<string>)
  {
    && (key in disk1.files <==> key in disk2.files)
    && (key in disk1.files ==> disk1.files[key] == disk2.files[key])
  }

  /** An explicit path is read, and no other file: the outcome depends on
      that one table entry alone, and `dir` plays no part for an absolute
      path. */
  lemma ExplicitReadsOnlyItsFile(disk1: Disk, disk2: Disk, p: string, dir: string)
    requires p != "" && disk1.cwd == disk2.cwd
    requires AgreeOn(disk1, disk2, Resolve(disk1.cwd, ExplicitPath(disk1.cwd, dir, p)))
    ensures ReadImportMapFile(disk1, Str(p), dir) == ReadImportMapFile(disk2, Str(p), dir)
    ensures var r := ReadImportMapFile(disk1, Str(p), dir);
            var key := Resolve(disk1.cwd, ExplicitPath(disk1.cwd, dir, p));
            && (r.Ok? <==> key in disk1.files)
            && (r.Ok? ==> r.value == disk1.files[key])
            && (r.Err? ==> r.error == FileUnreadable(ExplicitPath(disk1.cwd, dir, p)))
  {
  }

  /** An explicit absolute path names its own file, whatever `dir` is. */
  lemma ExplicitAbsoluteIgnoresDir(disk: Disk, p: string, dir1: string, dir2: string)
    requires IsAbsolute(p)
    ensures ReadImportMapFile(disk, Str(p), dir1) == ReadImportMapFile(disk, Str(p), dir2)
    ensures var r := ReadImportMapFile(disk, Str(p), dir1);
            r.Ok? <==> Resolve(disk.cwd, p) in disk.files
  {
  }

  /** An explicit relative path is read relative to `dir`, itself taken
      from the working directory (even when `dir` starts with '/'). */
  lemma ExplicitRelativeUnderDir(disk: Disk, p: string, dir: string)
    requires IsAbsolute(disk.cwd) && p != "" && !IsAbsolute(p)
    ensures var key := Canon(Canon(CwdSegments(disk.cwd), Split(dir), false), Split(p), false);
            var r := ReadImportMapFile(disk, Str(p), dir);
            && (r.Ok? <==> key in disk.files)
            && (r.Ok? ==> r.value == disk.files[key])
  {
    ResolveJoinUnderCwd(disk.cwd, dir, p);
  }

  /** A single-segment name joined under `dir` lies directly in the
      directory `dir` names under the working directory. */
  lemma NameUnderDir(cwd: string, dir: string, name: string)
    requires IsAbsolute(cwd) && Normal(name)
    ensures Resolve(cwd, Join([cwd, dir, name]))
         == Canon(CwdSegments(cwd), Split(dir), false) + [name]
  {
    var d := Canon(CwdSegments(cwd), Split(dir), false);
    ResolveJoinUnderCwd(cwd, dir, name);
    SplitNoSlash(name);
    CanonNormal(d, [name], false);
  }

  /** The two default names are looked up in `dir` under the working
      directory. */
  lemma DefaultsUnderDir(cwd: string, dir: string)
    requires IsAbsolute(cwd)
    ensures Resolve(cwd, LocalPath(cwd, dir))
         == Canon(CwdSegments(cwd), Split(dir), false) + ["import-map.local.json"]
    ensures Resolve(cwd, DefaultPath(cwd, dir))
         == Canon(CwdSegments(cwd), Split(dir), false) + ["import-map.json"]
  {
    assert Normal(LocalName) && Normal(DefaultName);
    NameUnderDir(cwd, dir, LocalName);
    NameUnderDir(cwd, dir, DefaultName);
  }

  // ---------------------------------------------------------------------
  // The search order without an explicit path

  /** Without an explicit path the local map wins whenever it is readable. */
  lemma LocalFirst(disk: Disk, explicitPath: Value, dir: string)
    requires !Truthy(explicitPath)
    requires Resolve(disk.cwd, LocalPath(disk.cwd, dir)) in disk.files
    ensures ReadImportMapFile(disk, explicitPath, dir)
         == Ok(disk.files[Resolve(disk.cwd, LocalPath(disk.cwd, dir))])
  {
  }

  /** The default map is read only when the local one is not readable. */
  lemma DefaultSecond(disk: Disk, explicitPath: Value, dir: string)
    requires !Truthy(explicitPath)
    requires Resolve(disk.cwd, LocalPath(disk.cwd, dir)) !in disk.files
    requires Resolve(disk.cwd, DefaultPath(disk.cwd, dir)) in disk.files
    ensures ReadImportMapFile(disk, explicitPath, dir)
         == Ok(disk.files[Resolve(disk.cwd, DefaultPath(disk.cwd, dir))])
  {
  }

  /** The search fails exactly when neither file is readable, and its error
      names both paths tried, local first. */
  lemma NotFoundNamesBoth(disk: Disk, explicitPath: Value, dir: string)
    requires !Truthy(explicitPath)
    ensures var r := ReadImportMapFile(disk, explicitPath, dir);
            r.Err? <==> (&& Resolve(disk.cwd, LocalPath(disk.cwd, dir)) !in disk.files
                         && Resolve(disk.cwd, DefaultPath(disk.cwd, dir)) !in disk.files)
    ensures var r := ReadImportMapFile(disk, explicitPath, dir);
            r.Err? ==> r.error == ImportMapNotFound(LocalPath(disk.cwd, dir), DefaultPath(disk.cwd, dir))
  {
  }

  /** Only the two default files matter to the search: disks that agree on
      them give the same outcome. */
  lemma SearchReadsOnlyTwoFiles(disk1: Disk, disk2: Disk, explicitPath: Value, dir: string)
    requires !Truthy(explicitPath) && disk1.cwd == disk2.cwd
    requires AgreeOn(disk1, disk2, Resolve(disk1.cwd, LocalPath(disk1.cwd, dir)))
    requires AgreeOn(disk1, disk2, Resolve(disk1.cwd, DefaultPath(disk1.cwd, dir)))
    ensures ReadImportMapFile(disk1, explicitPath, dir) == ReadImportMapFile(disk2, explicitPath, dir)
  {
  }

  /** A truthy `importMap` option that is not a string is rejected before
      any file is read. */
  lemma NonStringPathRejected(disk: Disk, explicitPath: Value, dir: string)
    requires Truthy(explicitPath) && !explicitPath.Str?
    ensures ReadImportMapFile(disk, explicitPath, dir) == Err(PathNotString)
  {
  }
}
