// The staleness decision for one source file (compileFileIfNeeded), stated
// over an abstract state: the project files on disk, the cache folder (cached
// copies of sources and bitcode files) and the ordered list of compiled
// modules. The compiler is an oracle that maps an argument vector and the
// text of the file it names to a module or to a failure. Files are compared
// by content, the way the builder compares their MD5 digests.

module Compile {
  import opened Paths
  import opened Types
  import opened Edits

  /** The compiler front end: the argument vector and the text of the file it
      compiles give the module's intermediate code, or nothing on failure. */
  type Frontend = (seq<string>, string) -> Option<string>

  /** What the builder reads but does not change while compiling. */
  datatype Env = Env(cacheFolder: string, clangIncludePath: string, info: BuildSettings,
                     disk: map<string, string>)

  /** What compiling may change: the cached copies of sources (by path), the
      bitcode files (by path) and the compiled modules, in order. */
  datatype Store = Store(sources: map<string, string>, bitcode: map<string, Artifact>,
                         modules: seq<Module>)

  datatype Outcome = Outcome(store: Store, status: CompilationStatus)

  /** The text read from a project file; an unreadable file reads as empty. */
  function DiskText(disk: map<string, string>, file: string): string
  {
    if file in disk then disk[file] else ""
  }

  /** What OutputStream::writeText (8-bit, no byte order mark) puts in a
      file: each line feed that does not follow a carriage return is written
      as a carriage return and a line feed; every other character as it is. */
  function WriteText(s: string): (r: string)
    ensures |r| >= |s|
    ensures s == [] <==> r == []
    ensures s != [] ==> r[0] == (if s[0] == '\n' then '\r' else s[0])
  {
    if s == [] then []
    else if s[0] == '\r' && |s| > 1 && s[1] == '\n' then "\r\n" + WriteText(s[2..])
    else if s[0] == '\n' then "\r\n" + WriteText(s[1..])
    else [s[0]] + WriteText(s[1..])
  }

  /** Some line feed does not follow a carriage return. */
  predicate HasBareLineFeed(s: string)
  {
    exists i :: 0 <= i < |s| && s[i] == '\n' && (i == 0 || s[i - 1] != '\r')
  }

  /** A leading carriage return and line feed hides no bare line feed. */
  lemma BareAfterCrLf(t: string)
    ensures HasBareLineFeed("\r\n" + t) <==> HasBareLineFeed(t)
  {
    var s := "\r\n" + t;
    if HasBareLineFeed(s) {
      var i :| 0 <= i < |s| && s[i] == '\n' && (i == 0 || s[i - 1] != '\r');
      assert i >= 2 && t[i - 2] == '\n';
      assert i - 2 == 0 || t[i - 3] != '\r';
    }
    if HasBareLineFeed(t) {
      var j :| 0 <= j < |t| && t[j] == '\n' && (j == 0 || t[j - 1] != '\r');
      assert s[j + 2] == '\n' && s[j + 1] != '\r';
    }
  }

  /** A leading character that is not a line feed, and that is not a carriage
      return in front of a line feed, hides no bare line feed. */
  lemma BareAfterChar(c: char, t: string)
    requires c != '\n' && !(c == '\r' && |t| > 0 && t[0] == '\n')
    ensures HasBareLineFeed([c] + t) <==> HasBareLineFeed(t)
  {
    var s := [c] + t;
    if HasBareLineFeed(s) {
      var i :| 0 <= i < |s| && s[i] == '\n' && (i == 0 || s[i - 1] != '\r');
      assert i >= 1 && t[i - 1] == '\n';
      assert i - 1 == 0 || t[i - 2] != '\r';
    }
    if HasBareLineFeed(t) {
      var j :| 0 <= j < |t| && t[j] == '\n' && (j == 0 || t[j - 1] != '\r');
      assert s[j + 1] == '\n' && s[j] != '\r';
    }
  }

  /** writeText leaves a text unchanged exactly when it has no bare line
      feed. */
  lemma {:induction false} WriteTextKeeps(s: string)
    ensures WriteText(s) == s <==> !HasBareLineFeed(s)
    decreases |s|
  {
    if s == [] {
    } else if s[0] == '\r' && |s| > 1 && s[1] == '\n' {
      WriteTextKeeps(s[2..]);
      BareAfterCrLf(s[2..]);
      assert s == "\r\n" + s[2..];
    } else if s[0] == '\n' {
      assert WriteText(s)[0] != s[0];
    } else {
      WriteTextKeeps(s[1..]);
      BareAfterChar(s[0], s[1..]);
      assert s == [s[0]] + s[1..];
    }
  }

  /** What writeText writes has no bare line feed. */
  lemma {:induction false} WriteTextNoBareLineFeed(s: string)
    ensures !HasBareLineFeed(WriteText(s))
    decreases |s|
  {
    if s == [] {
    } else if s[0] == '\r' && |s| > 1 && s[1] == '\n' {
      WriteTextNoBareLineFeed(s[2..]);
      BareAfterCrLf(WriteText(s[2..]));
    } else if s[0] == '\n' {
      WriteTextNoBareLineFeed(s[1..]);
      BareAfterCrLf(WriteText(s[1..]));
    } else {
      WriteTextNoBareLineFeed(s[1..]);
      BareAfterChar(s[0], WriteText(s[1..]));
    }
  }

  /** Writing out a text that was written out before changes nothing. */
  lemma WriteTextIdempotent(s: string)
    ensures WriteText(WriteText(s)) == WriteText(s)
  {
    WriteTextNoBareLineFeed(s);
    WriteTextKeeps(WriteText(s));
  }

  /** The cache after the first staging step. With an override text, a cached
      copy that reads back as that text is kept; otherwise it is deleted and
      the text is written out. Without one, a missing copy is copied from
      disk byte for byte. */
  function WithOverride(env: Env, sources: map<string, string>, req: Request): map<string, string>
  {
    var cached := CacheSourceFile(env.cacheFolder, req.file);
    if req.useString then
      if cached in sources && sources[cached] == req.text then sources
      else sources[cached := WriteText(req.text)]
    else if cached !in sources && req.file in env.disk then sources[cached := env.disk[req.file]]
    else sources
  }

  /** The cache after staging: a non-empty edit list rewrites the cached copy
      as the text on disk with the edits applied in order, written out. */
  function StageSource(env: Env, sources: map<string, string>, req: Request): map<string, string>
  {
    var s1 := WithOverride(env, sources, req);
    if req.useChanges && |req.changes| > 0 then
      s1[CacheSourceFile(env.cacheFolder, req.file) := WriteText(ApplyEdits(DiskText(env.disk, req.file), req.changes))]
    else s1
  }

  /** The file has not changed: its cached copy exists and has the same
      content as the file on disk. A file missing on disk never matches. */
  predicate Unchanged(disk: map<string, string>, sources: map<string, string>, file: string, cached: string)
  {
    cached in sources && file in disk && sources[cached] == disk[file]
  }

  /** Some module is tagged with this source name; moved-out entries are
      skipped. */
  predicate HasModule(modules: seq<Module>, name: string)
  {
    exists i :: 0 <= i < |modules| && modules[i].Module? && modules[i].sourceName == name
  }

  /** A scan for this name that reads every entry up to the first match, with
      no check for moved-out entries, meets the match before any moved-out
      entry. */
  predicate ScanSafe(modules: seq<Module>, name: string)
  {
    forall k :: 0 <= k < |modules| && modules[k].MovedOut? ==>
      exists j :: 0 <= j < k && modules[j].Module? && modules[j].sourceName == name
  }

  /** No entry of the module list has been moved out. */
  predicate Intact(modules: seq<Module>)
  {
    forall i :: 0 <= i < |modules| ==> modules[i].Module?
  }

  /** The bitcode file exists and reads back as a module. */
  predicate Loadable(bitcode: map<string, Artifact>, bc: string)
  {
    bc in bitcode && bitcode[bc].parses
  }

  /** The compiler prefix: "clang" for a C file, "clang++" in C++11 mode otherwise. */
  function CompilerPrefix(file: string): seq<string>
  {
    if EqualsIgnoreCase(Extension(file), ".c") then ["clang"] else ["clang++", "-std=c++11"]
  }

  const XcodeCppInclude := "-I/Applications/Xcode.app/Contents/Developer/Toolchains/XcodeDefault.xctoolchain/usr/include/c++/v1"
  const XcodeInclude := "-I/Applications/Xcode.app/Contents/Developer/Toolchains/XcodeDefault.xctoolchain/usr/include"

  /** The base include paths, with the clang include path found at start-up second. */
  function BaseIncludes(clangIncludePath: string): seq<string>
  {
    [XcodeCppInclude, clangIncludePath, XcodeInclude, "-I/usr/local/include", "-I/usr/include",
     "-I/System/Library/Frameworks", "-I/Library/Frameworks"]
  }

  const FixedDefines := ["-DNDEBUG=1", "-DJUCE_CHECK_MEMORY_LEAKS=1", "-DJUCE_NO_COMPILER_THREAD_LOCAL=1"]

  function DefineFlags(defines: seq<string>): (r: seq<string>)
    ensures |r| == |defines|
    ensures forall i :: 0 <= i < |defines| ==> r[i] == "-D" + defines[i]
  {
    if defines == [] then [] else DefineFlags(defines[..|defines| - 1]) + ["-D" + defines[|defines| - 1]]
  }

  function OptionalInclude(path: string): seq<string>
  {
    if path != "" then ["-I" + path] else []
  }

  /** The arguments up to and including "-c". */
  function LeadingArguments(env: Env, file: string): (r: seq<string>)
    ensures |r| == |CompilerPrefix(file)| + 10
  {
    CompilerPrefix(file) + ["-fsyntax-only", "-fno-use-cxa-atexit"] + BaseIncludes(env.clangIncludePath) + ["-c"]
  }

  /** The arguments after the defines: the file's own folder, the optional
      system and user paths, and the cached copy of the file last. */
  function TrailingArguments(env: Env, file: string): (r: seq<string>)
  {
    ["-I" + ParentDirectory(file)]
    + OptionalInclude(env.info.systemPath) + OptionalInclude(env.info.userPath)
    + [CacheSourceFile(env.cacheFolder, file)]
  }

  /** The arguments handed to the compiler driver for a file. */
  function Arguments(env: Env, file: string): (r: seq<string>)
  {
    LeadingArguments(env, file) + env.info.extraCompilerFlags
    + FixedDefines + DefineFlags(env.info.defines)
    + TrailingArguments(env, file)
  }

  /** The argument vector starts with "clang" for a ".c" file in any case and
      with "clang++ -std=c++11" otherwise, and "-c" ends its fixed part. */
  lemma ArgumentsHead(env: Env, file: string)
    ensures var r := Arguments(env, file);
            var p := |CompilerPrefix(file)|;
            && |r| > p + 9
            && r[0] == (if EqualsIgnoreCase(Extension(file), ".c") then "clang" else "clang++")
            && (!EqualsIgnoreCase(Extension(file), ".c") ==> r[1] == "-std=c++11")
            && r[p + 9] == "-c"
  {
    var a := LeadingArguments(env, file);
    var r := Arguments(env, file);
    assert r[..|a|] == a;
    assert a[0] == CompilerPrefix(file)[0];
    assert |CompilerPrefix(file)| == 2 ==> a[1] == "-std=c++11";
    assert a[|a| - 1] == "-c";
  }

  /** The extra compiler flags follow "-c" in order, then the three fixed
      defines, then each define in order with the "-D" prefix. */
  lemma ArgumentsFlagsAndDefines(env: Env, file: string)
    ensures var r := Arguments(env, file);
            var p := |CompilerPrefix(file)|;
            var flags := env.info.extraCompilerFlags;
            var defines := env.info.defines;
            && |r| >= p + 13 + |flags| + |defines|
            && (forall i :: 0 <= i < |flags| ==> r[p + 10 + i] == flags[i])
            && (forall i :: 0 <= i < |defines| ==> r[p + 13 + |flags| + i] == "-D" + defines[i])
  {
    ArgumentsFlags(env, file);
    ArgumentsDefines(env, file);
  }

  /** The extra compiler flags sit right after the leading arguments. */
  lemma ArgumentsFlags(env: Env, file: string)
    ensures var r := Arguments(env, file);
            var n := |LeadingArguments(env, file)|;
            var flags := env.info.extraCompilerFlags;
            |r| >= n + |flags| && forall i :: 0 <= i < |flags| ==> r[n + i] == flags[i]
  {
    var a := LeadingArguments(env, file);
    var flags := env.info.extraCompilerFlags;
    var rest := FixedDefines + DefineFlags(env.info.defines) + TrailingArguments(env, file);
    var r := Arguments(env, file);
    assert r == (a + flags) + rest;
    forall i | 0 <= i < |flags|
      ensures r[|a| + i] == flags[i]
    {
      assert r[|a| + i] == (a + flags)[|a| + i];
    }
  }

  /** The "-D" flags sit right after the leading arguments, the extra flags
      and the three fixed defines. */
  lemma ArgumentsDefines(env: Env, file: string)
    ensures var r := Arguments(env, file);
            var n := |LeadingArguments(env, file)| + |env.info.extraCompilerFlags| + 3;
            var ds := DefineFlags(env.info.defines);
            |r| >= n + |ds| && forall i :: 0 <= i < |ds| ==> r[n + i] == ds[i]
  {
    var front := LeadingArguments(env, file) + env.info.extraCompilerFlags + FixedDefines;
    var ds := DefineFlags(env.info.defines);
    var t := TrailingArguments(env, file);
    var r := Arguments(env, file);
    assert r == front + (ds + t);
    forall i | 0 <= i < |ds|
      ensures r[|front| + i] == ds[i]
    {
      assert r[|front| + i] == (ds + t)[i];
    }
  }

  /** After the defines come the file's own folder, the system path and the
      user path, each only when it is not empty, and the cached copy of the
      file last. */
  lemma ArgumentsTail(env: Env, file: string)
    ensures var r := Arguments(env, file);
            var k := |CompilerPrefix(file)| + 13 + |env.info.extraCompilerFlags| + |env.info.defines|;
            var extra := (if env.info.systemPath != "" then 1 else 0) + (if env.info.userPath != "" then 1 else 0);
            && |r| == k + 2 + extra
            && r[k] == "-I" + ParentDirectory(file)
            && (env.info.systemPath != "" ==> r[k + 1] == "-I" + env.info.systemPath)
            && (env.info.userPath != "" ==> r[|r| - 2] == "-I" + env.info.userPath)
            && r[|r| - 1] == CacheSourceFile(env.cacheFolder, file)
  {
    var r := Arguments(env, file);
    var a := LeadingArguments(env, file);
    var ds := DefineFlags(env.info.defines);
    var t := TrailingArguments(env, file);
    var o1 := OptionalInclude(env.info.systemPath);
    var o2 := OptionalInclude(env.info.userPath);
    assert t == ["-I" + ParentDirectory(file)] + o1 + o2 + [CacheSourceFile(env.cacheFolder, file)];
    assert |t| == 2 + |o1| + |o2|;
    var k := |a| + |env.info.extraCompilerFlags| + 3 + |ds|;
    assert r == (a + env.info.extraCompilerFlags + FixedDefines + ds) + t;
    assert r[k..] == t;
    assert r[k] == t[0];
    if env.info.systemPath != "" {
      assert r[k + 1] == t[1];
    }
    assert r[|r| - 2] == t[|t| - 2];
  }

  /** compileFileIfNeeded. Header files are skipped. Otherwise the cached copy is
      staged; an unchanged file whose bitcode loads gets that module appended
      (even when a module for it is already there); a changed file, or one with
      no module yet, is compiled from its cached copy: success rewrites the
      bitcode and appends the new module, failure changes nothing else. */
  function Compile(env: Env, st: Store, req: Request, fe: Frontend): (r: Outcome)
  {
    if IsHeader(req.file) then Outcome(st, NotNeeded)
    else Rebuild(env, st.(sources := StageSource(env, st.sources, req)), req.file, fe)
  }

  /** The part of compileFileIfNeeded after staging: an unchanged file whose
      bitcode loads gets that module appended; a changed file, or one with no
      module for its cached copy, is compiled from its cached copy; anything
      else needs nothing. */
  function Rebuild(env: Env, staged: Store, file: string, fe: Frontend): (r: Outcome)
  {
    var cached := CacheSourceFile(env.cacheFolder, file);
    var bc := CacheBitCodeFile(env.cacheFolder, file);
    var changed := !Unchanged(env.disk, staged.sources, file, cached);
    if !changed && Loadable(staged.bitcode, bc) then
      Outcome(staged.(modules := staged.modules + [Module(cached, staged.bitcode[bc].ir)]), NotNeeded)
    else if changed || !HasModule(staged.modules, cached) then Recompile(env, staged, file, fe)
    else Outcome(staged, NotNeeded)
  }

  /** compileFile and what follows it: the compiler is given the cached copy;
      success rewrites the bitcode file and appends the module, tagged with
      the cached copy's path; failure changes nothing. */
  function Recompile(env: Env, staged: Store, file: string, fe: Frontend): (r: Outcome)
  {
    var cached := CacheSourceFile(env.cacheFolder, file);
    var bc := CacheBitCodeFile(env.cacheFolder, file);
    var result := if cached in staged.sources then fe(Arguments(env, file), staged.sources[cached]) else None;
    match result
    case Some(ir) =>
      Outcome(staged.(bitcode := staged.bitcode[bc := Artifact(ir, true)],
                      modules := staged.modules + [Module(cached, ir)]), Ok)
    case None => Outcome(staged, Error)
  }

  /** fileReset: deletes the file's cached copy and its bitcode file. */
  function Reset(env: Env, st: Store, file: string): (r: Store)
  {
    st.(sources := st.sources - {CacheSourceFile(env.cacheFolder, file)},
        bitcode := st.bitcode - {CacheBitCodeFile(env.cacheFolder, file)})
  }

  /** cleanAllFiles: no modules, and an empty cache folder. */
  const Cleaned := Store(map[], map[], [])

  // ---------------------------------------------------------------------------
  // Properties of one compilation

  /** A header file, whatever the case of its extension, is not compiled and
      changes nothing. */
  lemma HeaderUntouched(env: Env, st: Store, req: Request, fe: Frontend)
    requires IsHeader(req.file)
    ensures Compile(env, st, req, fe) == Outcome(st, NotNeeded)
  {
  }

  /** With an override text and no edits, afterwards the cached copy holds
      that text as writeText writes it, unless it already read back as the
      text; no other cached source changes. A text with no bare line feed is
      held exactly. */
  lemma OverrideStaged(env: Env, st: Store, req: Request, fe: Frontend)
    requires !IsHeader(req.file) && req.useString && !(req.useChanges && |req.changes| > 0)
    ensures var r := Compile(env, st, req, fe);
            var cached := CacheSourceFile(env.cacheFolder, req.file);
            r.store.sources == st.sources[cached := if cached in st.sources && st.sources[cached] == req.text
                                                     then req.text else WriteText(req.text)]
    ensures !HasBareLineFeed(req.text) ==>
            Compile(env, st, req, fe).store.sources == st.sources[CacheSourceFile(env.cacheFolder, req.file) := req.text]
  {
    SourcesAreStaged(env, st, req, fe);
    WriteTextKeeps(req.text);
  }

  /** An override with a bare line feed never leaves a copy that reads back as
      the override: the next request with the same text deletes and rewrites
      the copy again. If the file on disk holds exactly that text, the copy
      differs from it, so the file is compiled every time. */
  lemma OverrideWithBareLineFeed(env: Env, st: Store, req: Request, fe: Frontend)
    requires !IsHeader(req.file) && req.useString && !(req.useChanges && |req.changes| > 0)
    requires HasBareLineFeed(req.text)
    requires var cached := CacheSourceFile(env.cacheFolder, req.file);
             !(cached in st.sources && st.sources[cached] == req.text)
    ensures var r := Compile(env, st, req, fe);
            var cached := CacheSourceFile(env.cacheFolder, req.file);
            r.store.sources[cached] != req.text
            && (req.file in env.disk && env.disk[req.file] == req.text ==> r.status != NotNeeded)
  {
    OverrideStaged(env, st, req, fe);
    WriteTextKeeps(req.text);
    NotNeededExactly(env, st, req, fe);
  }

  /** With a non-empty edit list, afterwards the cached copy holds the text on
      disk with each edit applied in order, and no other cached source changes.
      When the edits stay in range, every edit is a splice, so the length is
      the disk length plus what the edits add. */
  lemma EditsStaged(env: Env, st: Store, req: Request, fe: Frontend)
    requires !IsHeader(req.file) && req.useChanges && |req.changes| > 0
    ensures var r := Compile(env, st, req, fe);
            var cached := CacheSourceFile(env.cacheFolder, req.file);
            var edited := ApplyEdits(DiskText(env.disk, req.file), req.changes);
            r.store.sources == WithOverride(env, st.sources, req)[cached := WriteText(edited)]
            && (!HasBareLineFeed(edited) ==> r.store.sources[cached] == edited)
    ensures Sequential(DiskText(env.disk, req.file), req.changes) ==>
            |ApplyEdits(DiskText(env.disk, req.file), req.changes)| == |DiskText(env.disk, req.file)| + Growth(req.changes)
  {
    SourcesAreStaged(env, st, req, fe);
    WriteTextKeeps(ApplyEdits(DiskText(env.disk, req.file), req.changes));
    if Sequential(DiskText(env.disk, req.file), req.changes) {
      ApplyEditsLength(DiskText(env.disk, req.file), req.changes);
    }
  }

  /** The result is NotNeeded exactly when the file is a header, or it is
      unchanged and either its bitcode loads or a module for its cached copy
      already exists. */
  lemma NotNeededExactly(env: Env, st: Store, req: Request, fe: Frontend)
    ensures var cached := CacheSourceFile(env.cacheFolder, req.file);
            var sources := StageSource(env, st.sources, req);
            Compile(env, st, req, fe).status == NotNeeded <==>
              IsHeader(req.file)
              || (Unchanged(env.disk, sources, req.file, cached)
                  && (Loadable(st.bitcode, CacheBitCodeFile(env.cacheFolder, req.file))
                      || HasModule(st.modules, cached)))
  {
  }

  /** Staging touches the file's own cached copy and nothing else. */
  lemma StagingOnlyTouchesCachedCopy(env: Env, sources: map<string, string>, req: Request)
    ensures var staged := StageSource(env, sources, req);
            forall k :: k != CacheSourceFile(env.cacheFolder, req.file) ==>
              (k in staged <==> k in sources) && (k in sources ==> staged[k] == sources[k])
  {
  }

  /** A compilation after staging leaves the cached sources alone; success
      appends one module and rewrites the bitcode file, failure changes
      nothing. */
  lemma RecompileEffects(env: Env, staged: Store, file: string, fe: Frontend)
    ensures var r := Recompile(env, staged, file, fe);
            var cached := CacheSourceFile(env.cacheFolder, file);
            var bc := CacheBitCodeFile(env.cacheFolder, file);
            r.store.sources == staged.sources && r.status != NotNeeded
            && (r.status == Error ==> r.store == staged)
            && (r.status == Ok ==>
                  |r.store.modules| == |staged.modules| + 1
                  && r.store.modules[|staged.modules|].Module?
                  && var ir := r.store.modules[|staged.modules|].ir;
                     r.store.modules == staged.modules + [Module(cached, ir)]
                     && r.store.bitcode == staged.bitcode[bc := Artifact(ir, true)])
  {
  }

  /** What the part after staging does: as RecompileEffects when it compiles;
      otherwise the bitcode stays and at most the loaded module is appended. */
  lemma RebuildEffects(env: Env, staged: Store, file: string, fe: Frontend)
    ensures var r := Rebuild(env, staged, file, fe);
            var cached := CacheSourceFile(env.cacheFolder, file);
            var bc := CacheBitCodeFile(env.cacheFolder, file);
            r.store.sources == staged.sources
            && (r.status == Error ==> r.store == staged)
            && (r.status == Ok ==>
                  |r.store.modules| == |staged.modules| + 1
                  && r.store.modules[|staged.modules|].Module?
                  && var ir := r.store.modules[|staged.modules|].ir;
                     r.store.modules == staged.modules + [Module(cached, ir)]
                     && r.store.bitcode == staged.bitcode[bc := Artifact(ir, true)])
            && (r.status == NotNeeded ==>
                  r.store.bitcode == staged.bitcode
                  && (r.store.modules == staged.modules
                      || r.store.modules == staged.modules + [Module(cached, staged.bitcode[bc].ir)]))
  {
    RecompileEffects(env, staged, file, fe);
  }

  /** Whatever the outcome, the cached sources afterwards are the staged ones. */
  lemma SourcesAreStaged(env: Env, st: Store, req: Request, fe: Frontend)
    requires !IsHeader(req.file)
    ensures Compile(env, st, req, fe).store.sources == StageSource(env, st.sources, req)
  {
    RebuildEffects(env, st.(sources := StageSource(env, st.sources, req)), req.file, fe);
  }

  /** What each outcome does to the cache and the module list. Ok appends
      exactly one module, tagged with the cached copy's path, and rewrites the
      bitcode file; Error leaves modules and bitcode untouched; NotNeeded
      leaves the bitcode untouched and appends at most the loaded module. Only
      the file's own cached copy can change. */
  lemma OutcomeEffects(env: Env, st: Store, req: Request, fe: Frontend)
    ensures var r := Compile(env, st, req, fe);
            var cached := CacheSourceFile(env.cacheFolder, req.file);
            var bc := CacheBitCodeFile(env.cacheFolder, req.file);
            && (r.status == Ok ==>
                  exists ir :: r.store.modules == st.modules + [Module(cached, ir)]
                            && r.store.bitcode == st.bitcode[bc := Artifact(ir, true)])
            && (r.status == Error ==> r.store.modules == st.modules && r.store.bitcode == st.bitcode)
            && (r.status == NotNeeded ==>
                  r.store.bitcode == st.bitcode
                  && (r.store.modules == st.modules
                      || r.store.modules == st.modules + [Module(cached, st.bitcode[bc].ir)]))
            && (forall k :: k != cached ==>
                  (k in r.store.sources <==> k in st.sources)
                  && (k in st.sources ==> r.store.sources[k] == st.sources[k]))
  {
    if !IsHeader(req.file) {
      var staged := st.(sources := StageSource(env, st.sources, req));
      RebuildEffects(env, staged, req.file, fe);
      StagingOnlyTouchesCachedCopy(env, st.sources, req);
      var r := Rebuild(env, staged, req.file, fe);
      if r.status == Ok {
        var ir := r.store.modules[|st.modules|].ir;
        assert r.store.modules == st.modules + [Module(CacheSourceFile(env.cacheFolder, req.file), ir)];
      }
    }
  }

  /** Every module a compilation appends is tagged with the path of the cached
      copy, never with the project file's own path. */
  lemma ModulesTaggedWithCachePath(env: Env, st: Store, req: Request, fe: Frontend)
    ensures var r := Compile(env, st, req, fe);
            st.modules <= r.store.modules
            && forall i :: |st.modules| <= i < |r.store.modules| ==>
                 r.store.modules[i].Module? && r.store.modules[i].sourceName == CacheSourceFile(env.cacheFolder, req.file)
  {
    if !IsHeader(req.file) {
      RebuildEffects(env, st.(sources := StageSource(env, st.sources, req)), req.file, fe);
    }
  }

  /** The plain request a build issues for a unit: no override text and an
      empty edit list. */
  predicate Plain(req: Request)
  {
    !req.useString && !(req.useChanges && |req.changes| > 0)
  }

  /** A successful compilation of a plain request whose cached copy matches the
      disk is followed, for the same request, by NotNeeded that appends the
      same module again: the module list then holds it twice. */
  lemma CompileTwiceDuplicates(env: Env, st: Store, req: Request, fe: Frontend)
    requires Plain(req)
    requires Compile(env, st, req, fe).status == Ok
    requires Unchanged(env.disk, StageSource(env, st.sources, req), req.file, CacheSourceFile(env.cacheFolder, req.file))
    ensures var r1 := Compile(env, st, req, fe);
            var r2 := Compile(env, r1.store, req, fe);
            var m := r1.store.modules[|r1.store.modules| - 1];
            r2.status == NotNeeded
            && r2.store.modules == r1.store.modules + [m]
            && r2.store.modules[|r2.store.modules| - 2] == r2.store.modules[|r2.store.modules| - 1]
  {
    var cached := CacheSourceFile(env.cacheFolder, req.file);
    var bc := CacheBitCodeFile(env.cacheFolder, req.file);
    var staged := st.(sources := StageSource(env, st.sources, req));
    var r1 := Compile(env, st, req, fe);
    assert r1 == Rebuild(env, staged, req.file, fe);
    RebuildEffects(env, staged, req.file, fe);
    var m := r1.store.modules[|r1.store.modules| - 1];
    assert m == Module(cached, r1.store.modules[|staged.modules|].ir);
    assert Loadable(r1.store.bitcode, bc) && r1.store.bitcode[bc].ir == m.ir;
    assert StageSource(env, r1.store.sources, req) == r1.store.sources;
    RebuildLoads(env, r1.store, req.file, fe);
  }

  /** An unchanged file whose bitcode loads gets the loaded module appended
      and nothing else changes. */
  lemma RebuildLoads(env: Env, staged: Store, file: string, fe: Frontend)
    requires Unchanged(env.disk, staged.sources, file, CacheSourceFile(env.cacheFolder, file))
    requires Loadable(staged.bitcode, CacheBitCodeFile(env.cacheFolder, file))
    ensures var bc := CacheBitCodeFile(env.cacheFolder, file);
            Rebuild(env, staged, file, fe)
            == Outcome(staged.(modules := staged.modules + [Module(CacheSourceFile(env.cacheFolder, file), staged.bitcode[bc].ir)]), NotNeeded)
  {
  }

  /** A plain request never refreshes a cached copy that exists: when the file
      on disk has moved on, the stale copy stays and it is the stale copy the
      compiler is given, every time the file is built. */
  lemma StaleCopyCompiled(env: Env, st: Store, req: Request, fe: Frontend)
    requires Plain(req) && !IsHeader(req.file)
    requires var cached := CacheSourceFile(env.cacheFolder, req.file);
             cached in st.sources && req.file in env.disk && st.sources[cached] != env.disk[req.file]
    ensures var r := Compile(env, st, req, fe);
            var cached := CacheSourceFile(env.cacheFolder, req.file);
            r.store.sources == st.sources
            && r.status != NotNeeded
            && (r.status == Ok <==> fe(Arguments(env, req.file), st.sources[cached]).Some?)
            && (r.status == Ok ==> r.store.modules[|r.store.modules| - 1]
                                   == Module(cached, fe(Arguments(env, req.file), st.sources[cached]).value))
  {
  }

  // ---------------------------------------------------------------------------
  // Reset and clean

  /** fileReset removes exactly the file's cached copy and bitcode file; the
      cache entries of a file with a different name and a different stem
      survive, and the module list is unchanged. */
  lemma ResetOnlyThatFile(env: Env, st: Store, file: string, other: string)
    requires FileName(other) != FileName(file)
    requires NameWithoutExtension(other) != NameWithoutExtension(file)
    requires '.' !in NameWithoutExtension(file) && '.' !in NameWithoutExtension(other)
    ensures var r := Reset(env, st, file);
            CacheSourceFile(env.cacheFolder, file) !in r.sources
            && CacheBitCodeFile(env.cacheFolder, file) !in r.bitcode
            && r.modules == st.modules
            && (CacheSourceFile(env.cacheFolder, other) in r.sources
                <==> CacheSourceFile(env.cacheFolder, other) in st.sources)
            && (CacheBitCodeFile(env.cacheFolder, other) in r.bitcode
                <==> CacheBitCodeFile(env.cacheFolder, other) in st.bitcode)
  {
    ChildInjective(env.cacheFolder, FileName(file), FileName(other));
    ChildInjective(env.cacheFolder, WithExtension(NameWithoutExtension(file), ".bc"),
                   WithExtension(NameWithoutExtension(other), ".bc"));
    StemsKeepBitCodeApart(NameWithoutExtension(file), NameWithoutExtension(other));
  }

  /** Without the dot-free condition fileReset reaches further: resetting
      "a.b.cpp" also deletes the bitcode of "a.cpp" in any folder, while that
      file's cached copy stays. */
  lemma ResetDottedStemDropsSibling(env: Env, st: Store, folder1: string, folder2: string,
                                    stem: string, inner: string, ext1: string, ext2: string)
    requires |stem| > 0 && '.' !in stem && '.' !in inner && '.' !in ext1 && '.' !in ext2
    requires Separator !in stem && Separator !in inner && Separator !in ext1 && Separator !in ext2
    ensures var file := ChildFile(folder1, stem + "." + inner + "." + ext1);
            var other := ChildFile(folder2, stem + "." + ext2);
            var r := Reset(env, st, file);
            NameWithoutExtension(file) != NameWithoutExtension(other)
            && CacheBitCodeFile(env.cacheFolder, other) !in r.bitcode
            && (CacheSourceFile(env.cacheFolder, other) in r.sources
                <==> CacheSourceFile(env.cacheFolder, other) in st.sources)
  {
    var file := ChildFile(folder1, stem + "." + inner + "." + ext1);
    var other := ChildFile(folder2, stem + "." + ext2);
    DottedStemSharesBitCode(env.cacheFolder, folder1, folder2, stem, inner, ext1, ext2);
    BitCodeOfChild(env.cacheFolder, folder2, stem, ext2);
    FileNameOfChild(folder1, stem + "." + inner + "." + ext1);
    FileNameOfChild(folder2, stem + "." + ext2);
    StemOfDotted(stem, ext2);
    assert NameWithoutExtension(other) == stem;
    assert |NameWithoutExtension(file)| > |stem|;
    assert FileName(file) != FileName(other) by {
      var n1 := stem + "." + inner + "." + ext1;
      var n2 := stem + "." + ext2;
      assert n1[|stem| + 1..][|inner|] == '.';
      assert n2[|stem| + 1..] == ext2;
      assert '.' in n1[|stem| + 1..] && '.' !in n2[|stem| + 1..];
    }
    ChildInjective(env.cacheFolder, FileName(file), FileName(other));
  }

  /** Children of one folder with different names are different paths. */
  lemma ChildInjective(folder: string, a: string, b: string)
    ensures ChildFile(folder, a) == ChildFile(folder, b) ==> a == b
  {
    if ChildFile(folder, a) == ChildFile(folder, b) {
      assert a == ChildFile(folder, a)[|folder| + 1..];
    }
  }

  /** Two different stems without a dot get different bitcode names. */
  lemma StemsKeepBitCodeApart(a: string, b: string)
    ensures a != b && '.' !in a && '.' !in b ==>
      WithExtension(a, ".bc") != WithExtension(b, ".bc")
  {
    if a != b && '.' !in a && '.' !in b {
      assert WithExtension(a, ".bc")[..|a|] == a;
    }
  }

  /** After fileReset, a plain request for a file present on disk copies it
      afresh, so the file is unchanged; since its bitcode is gone, the result
      is NotNeeded with nothing appended exactly when a module for its cached
      copy still exists, and a compilation otherwise. */
  lemma ResetThenCompile(env: Env, st: Store, req: Request, fe: Frontend)
    requires Plain(req) && !IsHeader(req.file) && req.file in env.disk
    ensures var s := Reset(env, st, req.file);
            var r := Compile(env, s, req, fe);
            var cached := CacheSourceFile(env.cacheFolder, req.file);
            r.store.sources[cached] == env.disk[req.file]
            && (HasModule(st.modules, cached) <==> r.status == NotNeeded)
            && (r.status == NotNeeded ==> r.store.modules == st.modules)
  {
  }

  /** After cleanAllFiles, a plain request for a source present on disk is
      always compiled: the file is unchanged but there is neither a bitcode
      file nor a module to reuse. */
  lemma CleanForcesCompile(env: Env, req: Request, fe: Frontend)
    requires Plain(req) && !IsHeader(req.file) && req.file in env.disk
    ensures var r := Compile(env, Cleaned, req, fe);
            r.status != NotNeeded
            && (r.status == Ok <==> fe(Arguments(env, req.file), env.disk[req.file]).Some?)
            && |r.store.modules| == (if r.status == Ok then 1 else 0)
  {
  }
}
