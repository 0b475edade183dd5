// File names as the builder sees them: a file is its full path, a string with
// '/' as separator. Only the pieces of a path the builder uses are modelled:
// the file name, its extension, the name without extension, the parent
// directory, children of a folder, and case-insensitive comparisons.

module Paths {

  const Separator: char := '/'

  /** The index of the last occurrence of `c` in `s`, or -1 when there is none. */
  function LastIndexOf(s: string, c: char): (r: int)
    ensures -1 <= r < |s|
    ensures r >= 0 ==> s[r] == c
    ensures forall k :: r < k < |s| ==> s[k] != c
  {
    if |s| == 0 then -1
    else if s[|s| - 1] == c then |s| - 1
    else LastIndexOf(s[..|s| - 1], c)
  }

  /** getFileName: everything after the last separator. */
  function FileName(path: string): (r: string)
    ensures Separator !in r
    ensures |r| <= |path| && path[|path| - |r|..] == r
  {
    path[LastIndexOf(path, Separator) + 1..]
  }

  /** getFileExtension: from the last dot of the file name on, dot included;
      empty when the name has no dot. */
  function Extension(path: string): (r: string)
  {
    ExtensionOfName(FileName(path))
  }

  function ExtensionOfName(name: string): (r: string)
  {
    var dot := LastIndexOf(name, '.');
    if dot >= 0 then name[dot..] else ""
  }

  /** getFileNameWithoutExtension: the file name up to its last dot; a dot
      that starts the name does not count. */
  function NameWithoutExtension(path: string): (r: string)
  {
    StemOfName(FileName(path))
  }

  function StemOfName(name: string): (r: string)
  {
    var dot := LastIndexOf(name, '.');
    if dot > 0 then name[..dot] else name
  }

  /** withFileExtension, applied to a bare name: the name up to its last dot
      (if it has one) followed by the new extension. */
  function WithExtension(name: string, ext: string): (r: string)
  {
    var dot := LastIndexOf(name, '.');
    (if dot >= 0 then name[..dot] else name) + ext
  }

  /** getChildFile of a folder. */
  function ChildFile(folder: string, name: string): (r: string)
  {
    folder + [Separator] + name
  }

  /** getParentDirectory: the path up to its last separator; the root's own
      children have the root as parent, and a path with no separator is its
      own parent. */
  function ParentDirectory(path: string): (r: string)
  {
    var slash := LastIndexOf(path, Separator);
    if slash < 0 then path else if slash == 0 then [Separator] else path[..slash]
  }

  /** ASCII case folding. */
  function Lower(c: char): char
  {
    if 'A' <= c <= 'Z' then (c as int - 'A' as int + 'a' as int) as char else c
  }

  /** Equal up to ASCII case, compared from the back. */
  predicate EqualsIgnoreCase(a: string, b: string)
  {
    |a| == |b|
    && (a == [] || (Lower(a[|a| - 1]) == Lower(b[|b| - 1])
                    && EqualsIgnoreCase(a[..|a| - 1], b[..|b| - 1])))
  }

  predicate EndsWithIgnoreCase(s: string, suffix: string)
  {
    |suffix| <= |s| && EqualsIgnoreCase(s[|s| - |suffix|..], suffix)
  }

  /** A header file: extension ".h" in any case. */
  predicate IsHeader(path: string)
  {
    EqualsIgnoreCase(Extension(path), ".h")
  }

  /** getCacheSourceFile: the cached copy of a source lives in the cache folder
      under the source's file name. */
  function CacheSourceFile(cacheFolder: string, file: string): (r: string)
  {
    ChildFile(cacheFolder, FileName(file))
  }

  /** getCacheBitCodeFile: the child named after the file without extension,
      with its extension then replaced by ".bc". */
  function CacheBitCodeFile(cacheFolder: string, file: string): (r: string)
  {
    ChildFile(cacheFolder, WithExtension(NameWithoutExtension(file), ".bc"))
  }

  /** The cache is keyed by file name only: two sources with the same file name
      in different folders share both cache entries, and two sources whose
      names differ only in the extension share the bitcode entry. The cached
      copy always lies directly in the cache folder. */
  lemma {:induction false} CacheIdentityIsFileName(cacheFolder: string, a: string, b: string)
    ensures FileName(a) == FileName(b) ==>
      CacheSourceFile(cacheFolder, a) == CacheSourceFile(cacheFolder, b)
      && CacheBitCodeFile(cacheFolder, a) == CacheBitCodeFile(cacheFolder, b)
    ensures NameWithoutExtension(a) == NameWithoutExtension(b) ==>
      CacheBitCodeFile(cacheFolder, a) == CacheBitCodeFile(cacheFolder, b)
    ensures ParentDirectory(CacheSourceFile(cacheFolder, a)) == cacheFolder || cacheFolder == ""
    ensures FileName(CacheSourceFile(cacheFolder, a)) == FileName(a)
  {
    var c := CacheSourceFile(cacheFolder, a);
    var n := FileName(a);
    assert c == cacheFolder + [Separator] + n;
    var slash := LastIndexOf(c, Separator);
    assert c[|cacheFolder|] == Separator;
    assert slash == |cacheFolder|;
    assert c[..slash] == cacheFolder;
    assert c[slash + 1..] == n;
  }

  /** The last occurrence in a concatenation is in the second part if there is
      one there, otherwise it is the last occurrence in the first part. */
  lemma {:induction false} LastIndexOfAppend(s: string, t: string, c: char)
    ensures LastIndexOf(s + t, c) == if c in t then |s| + LastIndexOf(t, c) else LastIndexOf(s, c)
    decreases |t|
  {
    if t == [] {
      assert s + t == s;
    } else {
      var t' := t[..|t| - 1];
      assert (s + t)[..|s + t| - 1] == s + t';
      LastIndexOfAppend(s, t', c);
      if t[|t| - 1] != c {
        assert c in t <==> c in t' by {
          assert t == t' + [t[|t| - 1]];
        }
      }
    }
  }

  /** The file name of a child is the name it was created with. */
  lemma FileNameOfChild(folder: string, name: string)
    requires Separator !in name
    ensures FileName(ChildFile(folder, name)) == name
  {
    LastIndexOfAppend(folder + [Separator], name, Separator);
    assert LastIndexOf(folder + [Separator], Separator) == |folder|;
  }

  /** Stripping the extension of a name with one dot past its first character. */
  lemma StemOfDotted(stem: string, ext: string)
    requires |stem| > 0 && '.' !in stem && '.' !in ext
    ensures StemOfName(stem + "." + ext) == stem
    ensures WithExtension(stem, ".bc") == stem + ".bc"
  {
    var n := stem + "." + ext;
    LastIndexOfAppend(stem + ".", ext, '.');
    LastIndexOfAppend(stem, ".", '.');
    assert n[..|stem|] == stem;
  }

  /** Sources with the same stem and one extension each, such as "a.c" and
      "a.cpp", in any folders, share the bitcode file "<stem>.bc". */
  lemma SharedBitCode(cacheFolder: string, folder1: string, folder2: string,
                      stem: string, ext1: string, ext2: string)
    requires |stem| > 0 && '.' !in stem && '.' !in ext1 && '.' !in ext2
    requires Separator !in stem && Separator !in ext1 && Separator !in ext2
    ensures CacheBitCodeFile(cacheFolder, ChildFile(folder1, stem + "." + ext1))
         == CacheBitCodeFile(cacheFolder, ChildFile(folder2, stem + "." + ext2))
         == ChildFile(cacheFolder, stem + ".bc")
  {
    BitCodeOfChild(cacheFolder, folder1, stem, ext1);
    BitCodeOfChild(cacheFolder, folder2, stem, ext2);
  }

  lemma BitCodeOfChild(cacheFolder: string, folder: string, stem: string, ext: string)
    requires |stem| > 0 && '.' !in stem && '.' !in ext
    requires Separator !in stem && Separator !in ext
    ensures CacheBitCodeFile(cacheFolder, ChildFile(folder, stem + "." + ext))
      == ChildFile(cacheFolder, stem + ".bc")
  {
    var p := ChildFile(folder, stem + "." + ext);
    FileNameOfChild(folder, stem + "." + ext);
    StemOfDotted(stem, ext);
    assert NameWithoutExtension(p) == stem;
  }

  /** A stem with a dot of its own: "a.b.cpp" loses only ".cpp" as its
      extension, and withFileExtension then cuts "a.b" at its dot, so its
      bitcode file is "a.bc", the one "a.cpp" and "a.c" use as well. */
  lemma DottedStemSharesBitCode(cacheFolder: string, folder1: string, folder2: string,
                                stem: string, inner: string, ext1: string, ext2: string)
    requires |stem| > 0 && '.' !in stem && '.' !in inner && '.' !in ext1 && '.' !in ext2
    requires Separator !in stem && Separator !in inner && Separator !in ext1 && Separator !in ext2
    ensures NameWithoutExtension(ChildFile(folder1, stem + "." + inner + "." + ext1)) == stem + "." + inner
    ensures CacheBitCodeFile(cacheFolder, ChildFile(folder1, stem + "." + inner + "." + ext1))
         == CacheBitCodeFile(cacheFolder, ChildFile(folder2, stem + "." + ext2))
         == ChildFile(cacheFolder, stem + ".bc")
  {
    var dotted := stem + "." + inner;
    var name := dotted + "." + ext1;
    FileNameOfChild(folder1, name);
    LastIndexOfAppend(dotted + ".", ext1, '.');
    LastIndexOfAppend(dotted, ".", '.');
    assert name[..|dotted|] == dotted;
    assert StemOfName(name) == dotted;
    LastIndexOfAppend(stem + ".", inner, '.');
    LastIndexOfAppend(stem, ".", '.');
    assert dotted[..|stem|] == stem;
    assert WithExtension(dotted, ".bc") == stem + ".bc";
    BitCodeOfChild(cacheFolder, folder2, stem, ext2);
  }

  /** A file name is its name without extension followed by its extension,
      unless the only dot starts the name. */
  lemma NameSplitsAtExtension(path: string)
    ensures LastIndexOf(FileName(path), '.') != 0 ==>
      NameWithoutExtension(path) + Extension(path) == FileName(path)
    ensures Extension(path) == "" || Extension(path)[0] == '.'
  {
    var name := FileName(path);
    var dot := LastIndexOf(name, '.');
    if dot > 0 {
      assert name[..dot] + name[dot..] == name;
    }
  }
}
