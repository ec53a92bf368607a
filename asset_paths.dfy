/**
 * The two path helpers of the audio trimmer: the name of the trimmed copy of
 * an asset, and the absolute file path of an asset path. They are built from
 * System.IO.Path's string operations on a system whose directory separator
 * is '/'.
 */
module AssetPaths {
  import opened Wrappers

  const Separator: char := '/'
  const ExtensionMark: char := '.'

  /** The suffix that marks a trimmed copy. */
  const TrimmedSuffix: string := "_trimmed"

  /** The number of characters of the "Assets/" prefix an asset path starts with. */
  const AssetsPrefixLength: nat := 7

  /** Why a path operation throws instead of returning. */
  datatype PathError =
    | NullDirectory      // Path.GetDirectoryName returned null, and Path.Combine refuses it
    | RemoveOutOfRange   // String.Remove(0, 7) on a string shorter than 7

  /** The index of the last `c` in `s`, or -1 when there is none. */
  function LastIndexOf(s: string, c: char): (k: int)
    ensures -1 <= k < |s|
    ensures k >= 0 ==> s[k] == c
    ensures forall m :: k < m < |s| ==> s[m] != c
  {
    if |s| == 0 then -1
    else if s[|s| - 1] == c then |s| - 1
    else LastIndexOf(s[..|s| - 1], c)
  }

  /** A string with no `c` in it. */
  predicate Lacks(s: string, c: char)
  {
    forall m :: 0 <= m < |s| ==> s[m] != c
  }

  /** No two separators in a row. */
  predicate NoDoubleSeparator(path: string)
  {
    forall m :: 0 <= m < |path| - 1 ==> !(path[m] == Separator && path[m + 1] == Separator)
  }

  /**
   * Path.GetDirectoryName: everything before the last separator; "/" when
   * that separator is the first character; "" when there is none; null
   * (None) for the empty path and for the root itself.
   */
  function DirectoryName(path: string): (dir: Option<string>)
    ensures dir.None? <==> path == [] || path == [Separator]
  {
    if path == [] || path == [Separator] then None
    else
      var k := LastIndexOf(path, Separator);
      if k < 0 then Some([])
      else if k == 0 then Some([Separator])
      else Some(path[..k])
  }

  /** Path.GetFileName: everything after the last separator. */
  function FileName(path: string): (name: string)
    ensures Lacks(name, Separator)
    ensures |name| <= |path| && path[|path| - |name|..] == name
  {
    path[LastIndexOf(path, Separator) + 1..]
  }

  /** A file name without its extension: everything before its last dot. */
  function Stem(name: string): (stem: string)
  {
    var k := LastIndexOf(name, ExtensionMark);
    if k < 0 then name else name[..k]
  }

  /**
   * The extension of a file name: its last dot and what follows, or "" when
   * it has no dot or the dot is its last character.
   */
  function Ext(name: string): (ext: string)
  {
    var k := LastIndexOf(name, ExtensionMark);
    if k < 0 || k == |name| - 1 then [] else name[k..]
  }

  /** Path.GetFileNameWithoutExtension. */
  function FileNameWithoutExtension(path: string): (stem: string)
    ensures |stem| <= |FileName(path)|
  {
    Stem(FileName(path))
  }

  /** Path.GetExtension. */
  function Extension(path: string): (ext: string)
    ensures ext != [] ==> |ext| >= 2 && ext[0] == ExtensionMark
  {
    Ext(FileName(path))
  }

  /**
   * Path.Combine of two paths: the other one when either is empty, the
   * second when it is rooted, otherwise the two joined by one separator
   * (none is added when the first already ends with one).
   */
  function Combine(a: string, b: string): (r: string)
    ensures |b| == 0 ==> r == a
    ensures |a| == 0 ==> r == b
    ensures |b| > 0 && b[0] == Separator ==> r == b
  {
    if |b| == 0 then a
    else if |a| == 0 then b
    else if b[0] == Separator then b
    else if a[|a| - 1] == Separator then a + b
    else a + [Separator] + b
  }

  /**
   * GetTrimmedName: the same directory, the file name without extension
   * followed by "_trimmed", then the same extension.
   */
  function GetTrimmedName(path: string): (r: Result<string, PathError>)
    ensures r.Failure? <==> DirectoryName(path).None?
    ensures r.Failure? ==> r.error == NullDirectory
  {
    match DirectoryName(path)
    case None => Failure(NullDirectory)
    case Some(dir) =>
      Success(Combine(dir, FileNameWithoutExtension(path) + TrimmedSuffix + Extension(path)))
  }

  /**
   * GetFullPath: drops the first seven characters ("Assets/") of an asset
   * path and combines the rest with the project's data directory.
   */
  function GetFullPath(dataPath: string, assetPath: string): (r: Result<string, PathError>)
    ensures r.Failure? <==> |assetPath| < AssetsPrefixLength
    ensures r.Failure? ==> r.error == RemoveOutOfRange
  {
    if |assetPath| < AssetsPrefixLength then Failure(RemoveOutOfRange)
    else Success(Combine(dataPath, assetPath[AssetsPrefixLength..]))
  }

  // ---------------------------------------------------------------------
  // Properties
  // ---------------------------------------------------------------------

  /** LastIndexOf is the only index with its two properties. */
  lemma LastIndexOfUnique(s: string, c: char, k: int)
    requires -1 <= k < |s| && (k >= 0 ==> s[k] == c)
    requires forall m :: k < m < |s| ==> s[m] != c
    ensures LastIndexOf(s, c) == k
  {
  }

  /**
   * A separator-free file name placed in a directory by Combine is the
   * file name of the result, and the directory is its directory name.
   */
  lemma PlaceName(dir: string, name: string)
    requires |name| > 0 && Lacks(name, Separator)
    requires dir == [] || dir == [Separator] || dir[|dir| - 1] != Separator
    ensures FileName(Combine(dir, name)) == name
    ensures DirectoryName(Combine(dir, name)) == Some(dir)
  {
    var p := Combine(dir, name);
    if dir == [] {
      assert p == name && p[0] != Separator;
      LastIndexOfUnique(p, Separator, -1);
      assert DirectoryName(p) == Some([]);
    } else if dir == [Separator] {
      assert p == [Separator] + name && |p| >= 2;
      LastIndexOfUnique(p, Separator, 0);
      assert DirectoryName(p) == Some([Separator]);
    } else {
      assert p == dir + [Separator] + name && |p| >= 2;
      LastIndexOfUnique(p, Separator, |dir|);
      assert p[..|dir|] == dir;
      assert DirectoryName(p) == Some(p[..|dir|]);
    }
  }

  /** The directory name of a path without doubled separators never ends with a separator, save the root. */
  lemma DirectoryNameShape(path: string)
    requires NoDoubleSeparator(path) && DirectoryName(path).Some?
    ensures var dir := DirectoryName(path).value;
      dir == [] || dir == [Separator] || dir[|dir| - 1] != Separator
  {
    var k := LastIndexOf(path, Separator);
    if k > 0 {
      assert path[k] == Separator;
      assert path[..k][k - 1] == path[k - 1];
    }
  }

  /** The marker holds neither a dot nor a separator. */
  lemma TrimmedSuffixShape()
    ensures |TrimmedSuffix| > 0 && Lacks(TrimmedSuffix, ExtensionMark) && Lacks(TrimmedSuffix, Separator)
  {
    assert TrimmedSuffix == ['_', 't', 'r', 'i', 'm', 'm', 'e', 'd'];
  }

  /**
   * A file name that does not end in a dot, or whose trailing dot is its
   * only dot: the names whose stem keeps a suffix appended to it.
   */
  predicate SuffixSurvives(name: string)
  {
    |name| == 0 || name[|name| - 1] != ExtensionMark || Lacks(name[..|name| - 1], ExtensionMark)
  }

  /**
   * Appending a dot-free suffix to the stem of a name that does not end with
   * a dot, or whose only dot is its last character, moves the suffix into
   * the stem and keeps the extension.
   */
  lemma SuffixStem(name: string, suffix: string)
    requires SuffixSurvives(name)
    requires Lacks(suffix, ExtensionMark) && |suffix| > 0
    ensures Stem(Stem(name) + suffix + Ext(name)) == Stem(name) + suffix
    ensures Ext(Stem(name) + suffix + Ext(name)) == Ext(name)
  {
    var k := LastIndexOf(name, ExtensionMark);
    var stem, ext := Stem(name), Ext(name);
    var n := stem + suffix + ext;
    if k < 0 {
      assert stem == name && ext == [];
      assert n == name + suffix;
      LastIndexOfUnique(n, ExtensionMark, -1);
    } else if k == |name| - 1 {
      assert stem == name[..k] && ext == [];
      assert n == name[..k] + suffix;
      assert forall m :: 0 <= m < |n| ==> n[m] != ExtensionMark by {
        forall m | 0 <= m < |n|
          ensures n[m] != ExtensionMark
        {
          if m < k {
            assert n[m] == name[..k][m];
          } else {
            assert n[m] == suffix[m - k];
          }
        }
      }
      LastIndexOfUnique(n, ExtensionMark, -1);
    } else {
      assert stem == name[..k] && ext == name[k..];
      assert n == name[..k] + suffix + name[k..];
      var dot := k + |suffix|;
      assert n[dot] == name[k];
      forall m | dot < m < |n|
        ensures n[m] != ExtensionMark
      {
        assert n[m] == name[m - |suffix|];
      }
      LastIndexOfUnique(n, ExtensionMark, dot);
      assert n[..dot] == stem + suffix;
      assert n[dot..] == ext;
    }
  }

  /**
   * GetTrimmedName keeps the directory and the extension and appends
   * "_trimmed" to the file name without extension, for every path that has
   * a directory name, no doubled separators and a file name that does not
   * end in a dot or has no other dot.
   */
  lemma TrimmedNameParts(path: string)
    requires DirectoryName(path).Some? && NoDoubleSeparator(path)
    requires SuffixSurvives(FileName(path))
    ensures GetTrimmedName(path).Success?
    ensures var p := GetTrimmedName(path).value;
      && DirectoryName(p) == DirectoryName(path)
      && FileNameWithoutExtension(p) == FileNameWithoutExtension(path) + TrimmedSuffix
      && Extension(p) == Extension(path)
  {
    var name := FileName(path);
    var newName := Stem(name) + TrimmedSuffix + Ext(name);
    TrimmedNamePlaced(path);
    var p := GetTrimmedName(path).value;
    assert FileNameWithoutExtension(p) == Stem(newName) && Extension(p) == Ext(newName);
    TrimmedSuffixShape();
    SuffixStem(name, TrimmedSuffix);
  }

  /** The trimmed path is the new file name placed in the directory of the old path. */
  lemma TrimmedNamePlaced(path: string)
    requires DirectoryName(path).Some? && NoDoubleSeparator(path)
    ensures GetTrimmedName(path).Success?
    ensures var name, p := FileName(path), GetTrimmedName(path).value;
      && FileName(p) == Stem(name) + TrimmedSuffix + Ext(name)
      && DirectoryName(p) == DirectoryName(path)
  {
    var dir := DirectoryName(path).value;
    var name := FileName(path);
    var newName := Stem(name) + TrimmedSuffix + Ext(name);
    assert GetTrimmedName(path) == Success(Combine(dir, newName));
    TrimmedSuffixShape();
    NewNameLacksSeparator(name, TrimmedSuffix);
    DirectoryNameShape(path);
    PlaceName(dir, newName);
  }

  /** The new file name has no separator when the old one has none. */
  lemma NewNameLacksSeparator(name: string, suffix: string)
    requires Lacks(name, Separator) && Lacks(suffix, Separator) && |suffix| > 0
    ensures var n := Stem(name) + suffix + Ext(name); |n| > 0 && Lacks(n, Separator)
  {
    var k := LastIndexOf(name, ExtensionMark);
    var stem, ext := Stem(name), Ext(name);
    assert forall m :: 0 <= m < |stem| ==> stem[m] == name[m];
    if ext != [] {
      assert forall m :: 0 <= m < |ext| ==> ext[m] == name[k + m];
    }
  }

  /** The file name without extension of a trimmed name is recognised as trimmed by its suffix. */
  lemma TrimmedNameIsRecognised(path: string)
    requires DirectoryName(path).Some? && NoDoubleSeparator(path)
    requires SuffixSurvives(FileName(path))
    ensures GetTrimmedName(path).Success?
    ensures var stem := FileNameWithoutExtension(GetTrimmedName(path).value);
      |stem| >= |TrimmedSuffix| && stem[|stem| - |TrimmedSuffix|..] == TrimmedSuffix
  {
    TrimmedNameParts(path);
  }

  /**
   * A file name ending in a dot loses the suffix: the dot is dropped with
   * the empty extension, so an earlier dot becomes the last one.
   */
  lemma TrailingDotCounterexample()
    ensures GetTrimmedName("a.b.") == Success("a.b_trimmed")
    ensures FileNameWithoutExtension("a.b_trimmed") == "a"
  {
    var path, trimmed := "a.b.", "a.b_trimmed";
    LastIndexOfUnique(path, Separator, -1);
    LastIndexOfUnique(path, ExtensionMark, 3);
    assert FileName(path) == path;
    assert DirectoryName(path) == Some("");
    assert Stem(path) == "a.b";
    assert Ext(path) == "";
    assert "a.b" + TrimmedSuffix + "" == trimmed;
    assert Combine("", trimmed) == trimmed;
    LastIndexOfUnique(trimmed, Separator, -1);
    LastIndexOfUnique(trimmed, ExtensionMark, 1);
    assert FileName(trimmed) == trimmed;
    assert Stem(trimmed) == "a";
  }

  /** GetTrimmedName fails exactly for the empty path and the root. */
  lemma TrimmedNameFails(path: string)
    ensures GetTrimmedName(path).Failure? <==> path == [] || path == [Separator]
  {
  }

  /**
   * GetFullPath throws exactly for an asset path shorter than "Assets/";
   * for a data directory not ending in a separator and a relative remainder
   * it is the directory, a separator, and the remainder.
   */
  lemma FullPathJoins(dataPath: string, assetPath: string)
    ensures GetFullPath(dataPath, assetPath).Failure? <==> |assetPath| < AssetsPrefixLength
    ensures |assetPath| > AssetsPrefixLength && |dataPath| > 0
            && dataPath[|dataPath| - 1] != Separator && assetPath[AssetsPrefixLength] != Separator
            ==> GetFullPath(dataPath, assetPath)
                == Success(dataPath + [Separator] + assetPath[AssetsPrefixLength..])
  {
  }

  /**
   * The directory name of a path is a proper prefix of it, and a path with
   * no separator (such as "a") has the empty directory name.
   */
  lemma DirectoryNameIsPrefix(path: string)
    ensures DirectoryName(path).Some? ==>
      var dir := DirectoryName(path).value; |dir| < |path| && path[..|dir|] == dir
    ensures path != [] && Lacks(path, Separator) ==> DirectoryName(path) == Some([])
  {
    if path != [] && Lacks(path, Separator) {
      assert path != [Separator] by { assert path[0] != Separator; }
      LastIndexOfUnique(path, Separator, -1);
    }
  }

  /**
   * A file name splits into its name without extension and its extension,
   * with a lone trailing dot dropped from both.
   */
  lemma NameSplits(path: string)
    ensures var name, stem, ext := FileName(path), FileNameWithoutExtension(path), Extension(path);
      if |name| > 0 && name[|name| - 1] == ExtensionMark then name == stem + [ExtensionMark] && ext == []
      else name == stem + ext
  {
    var name := FileName(path);
    var k := LastIndexOf(name, ExtensionMark);
    if k >= 0 {
      assert name == name[..k] + name[k..];
      if k == |name| - 1 {
        assert name[k..] == [ExtensionMark];
      }
    }
  }

  /** The extension starts with its only dot and holds no separator. */
  lemma ExtensionShape(path: string)
    ensures var ext := Extension(path);
      ext != [] ==> Lacks(ext[1..], ExtensionMark) && Lacks(ext, Separator)
  {
    var name := FileName(path);
    var k := LastIndexOf(name, ExtensionMark);
    var ext := Ext(name);
    if ext != [] {
      assert ext == name[k..];
      assert forall m :: 0 <= m < |ext| ==> ext[m] == name[k + m];
    }
  }

  /**
   * Combine keeps the second path at its end, and the first at its front
   * when the second is relative and neither is empty.
   */
  lemma CombineEnds(a: string, b: string)
    ensures var r := Combine(a, b); |b| <= |r| && r[|r| - |b|..] == b
    ensures |a| > 0 && |b| > 0 && b[0] != Separator ==>
      var r := Combine(a, b); |a| <= |r| && r[..|a|] == a
  {
    var r := Combine(a, b);
    if |a| > 0 && |b| > 0 && b[0] != Separator {
      if a[|a| - 1] == Separator {
        assert r == a + b;
      } else {
        assert r == a + [Separator] + b;
      }
    }
  }
}
