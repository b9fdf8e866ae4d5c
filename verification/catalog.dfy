/**
 * The catalog side of src/image_loader.rs as values: paths and their
 * extensions, the case-insensitive extension filter (`is_supported_ext`),
 * the file system as a tree whose directory listings come already sorted,
 * and what `scan_recursively`, `append_path` and `scan_input_paths` collect
 * from it.
 */
module Catalog {
  import opened Wrappers
  import opened SeqFacts

  /** Paths are '/'-separated strings, already normalised (no "." components, no trailing '/'). */
  type Path = string

  /** `MAX_DEPTH_SCAN`: the deepest directory level visited when subfolders are scanned. */
  const MAX_DEPTH_SCAN: nat := 999

  function LastIndexOf(s: string, c: char): (r: Option<nat>)
    ensures r.Some? ==> r.value < |s| && s[r.value] == c && forall j :: r.value < j < |s| ==> s[j] != c
    ensures r.None? ==> forall j :: 0 <= j < |s| ==> s[j] != c
  {
    if s == [] then None
    else if s[|s| - 1] == c then Some(|s| - 1)
    else LastIndexOf(s[..|s| - 1], c)
  }

  /** The last component of a path: everything after its last '/'. */
  function FileName(p: Path): (name: string)
    ensures '/' !in name
    ensures |name| <= |p| && name == p[|p| - |name|..]
  {
    match LastIndexOf(p, '/')
    case None => p
    case Some(i) => p[i + 1..]
  }

  /**
   * `Path::extension`: the text after the last '.' of the file name; none when
   * the name has no '.', when its only '.' is the leading one (".png"), or
   * when the name is "..".
   */
  function Extension(p: Path): (ext: Option<string>)
    ensures ext.Some? ==> '.' !in ext.value && '/' !in ext.value
  {
    var name := FileName(p);
    if name == ".." then None
    else
      match LastIndexOf(name, '.')
      case None => None
      case Some(i) => if i == 0 then None else Some(name[i + 1..])
  }

  function LowerChar(c: char): char
  {
    if 'A' <= c <= 'Z' then (c as int - 'A' as int + 'a' as int) as char else c
  }

  /** `to_ascii_lowercase`: ASCII capitals become lower case, everything else stays. */
  function AsciiLower(s: string): (t: string)
    ensures |t| == |s|
    ensures forall i :: 0 <= i < |s| ==> t[i] == LowerChar(s[i])
  {
    seq(|s|, i requires 0 <= i < |s| => LowerChar(s[i]))
  }

  /**
   * `is_supported_ext`: a path qualifies when it has an extension whose ASCII
   * lower-case form is one of the supported extensions.
   */
  function IsSupportedExt(extensions: seq<string>, p: Path): (ok: bool)
    ensures Extension(p).None? ==> !ok
    ensures Extension(p).Some? ==> (ok <==> AsciiLower(Extension(p).value) in extensions)
    ensures extensions == [] ==> !ok
  {
    match Extension(p)
    case None => false
    case Some(ext) => AsciiLower(ext) in extensions
  }

  lemma LastIndexOfAt(s: string, c: char, i: nat)
    requires i < |s| && s[i] == c && forall j :: i < j < |s| ==> s[j] != c
    ensures LastIndexOf(s, c) == Some(i)
  {
  }

  lemma LastIndexOfAbsent(s: string, c: char)
    requires forall j :: 0 <= j < |s| ==> s[j] != c
    ensures LastIndexOf(s, c) == None
  {
  }

  /** A name with no '.' after its first character has no extension, so it is never supported. */
  lemma NoExtensionNotSupported(extensions: seq<string>, p: Path)
    requires forall j :: 0 < j < |FileName(p)| ==> FileName(p)[j] != '.'
    ensures Extension(p) == None
    ensures !IsSupportedExt(extensions, p)
  {
    var name := FileName(p);
    var r := LastIndexOf(name, '.');
    if r.Some? {
      assert r.value == 0;
    }
  }

  /** Appending text free of `c` does not move the last occurrence of `c`. */
  lemma {:induction false} LastIndexOfAppendFree(s: string, t: string, c: char)
    requires c !in t
    ensures LastIndexOf(s + t, c) == LastIndexOf(s, c)
    decreases |t|
  {
    var u := s + t;
    if t == [] {
      assert u == s;
    } else {
      assert u[|u| - 1] == t[|t| - 1];
      assert u[..|u| - 1] == s + t[..|t| - 1];
      LastIndexOfAppendFree(s, t[..|t| - 1], c);
    }
  }

  /** Appending text without a '/' extends the file name by that text. */
  lemma FileNameOfAppended(stem: Path, tail: string)
    requires '/' !in tail
    ensures FileName(stem + tail) == FileName(stem) + tail
  {
    LastIndexOfAppendFree(stem, tail, '/');
    match LastIndexOf(stem, '/') {
      case None =>
        FileNameUncut(stem + tail);
        FileNameUncut(stem);
      case Some(i) =>
        FileNameCut(stem + tail, i);
        FileNameCut(stem, i);
        DropOfAppend(stem, tail, i + 1);
    }
  }

  lemma FileNameUncut(p: Path)
    requires LastIndexOf(p, '/').None?
    ensures FileName(p) == p
  {
  }

  lemma FileNameCut(p: Path, i: nat)
    requires LastIndexOf(p, '/') == Some(i)
    ensures i < |p| && FileName(p) == p[i + 1..]
  {
  }

  /** In `a + "." + ext` with a dot-free `ext`, the last '.' is the one appended. */
  lemma LastDotOfDotted(a: string, ext: string)
    requires '.' !in ext
    ensures LastIndexOf(a + "." + ext, '.') == Some(|a|)
    ensures (a + "." + ext)[|a| + 1..] == ext
  {
    var dotted := a + ".";
    assert dotted[|dotted| - 1] == '.';
    LastIndexOfAppendFree(dotted, ext, '.');
  }

  /** Appending "." and a dot-free, slash-free suffix to a path with a non-empty name gives that suffix as extension. */
  lemma ExtensionOfDotted(stem: Path, ext: string)
    requires FileName(stem) != [] && ext != []
    requires '.' !in ext && '/' !in ext
    ensures Extension(stem + "." + ext) == Some(ext)
  {
    var stemName := FileName(stem);
    var name := stemName + "." + ext;
    assert stem + "." + ext == stem + ("." + ext);
    FileNameOfAppended(stem, "." + ext);
    assert FileName(stem + "." + ext) == name;
    assert |name| >= 3;
    LastDotOfDotted(stemName, ext);
    ExtensionAt(stem + "." + ext, |stemName|);
  }

  lemma ExtensionAt(p: Path, i: nat)
    requires FileName(p) != ".." && LastIndexOf(FileName(p), '.') == Some(i) && i > 0
    ensures i < |FileName(p)| && Extension(p) == Some(FileName(p)[i + 1..])
  {
  }

  /** The extension filter ignores ASCII case: "a.PNG" qualifies exactly when "a.png" does. */
  lemma IsSupportedExtIgnoresCase(extensions: seq<string>, stem: Path, e1: string, e2: string)
    requires FileName(stem) != [] && e1 != [] && e2 != []
    requires '.' !in e1 && '/' !in e1 && '.' !in e2 && '/' !in e2
    requires AsciiLower(e1) == AsciiLower(e2)
    ensures IsSupportedExt(extensions, stem + "." + e1) == IsSupportedExt(extensions, stem + "." + e2)
  {
    ExtensionOfDotted(stem, e1);
    ExtensionOfDotted(stem, e2);
  }

  /**
   * The file system as seen through `fs::read_dir`, `is_dir` and `is_file`:
   * a directory lists its entries already in alphanumeric order, or cannot
   * be read; `Other` is anything that is neither a file nor a directory.
   */
  datatype FsNode =
    | File(path: Path)
    | Dir(path: Path, readable: bool, entries: seq<FsNode>)
    | Other(path: Path)

  /** The depth guard at the head of `scan_recursively`. */
  predicate DepthAllowed(scanSubfolders: bool, depth: nat)
  {
    if scanSubfolders then depth <= MAX_DEPTH_SCAN else depth == 0
  }

  /** Everything `scan_recursively(out, dir, depth)` appends to `out`. */
  function ScanDir(scanSubfolders: bool, extensions: seq<string>, dir: FsNode, depth: nat): (found: seq<Path>)
    ensures forall p :: p in found ==> IsSupportedExt(extensions, p)
    decreases dir, 0
  {
    if !DepthAllowed(scanSubfolders, depth) then []
    else
      match dir
      case Dir(_, true, entries) => ScanEntries(scanSubfolders, extensions, entries, depth)
      case _ => []
  }

  /** What the loop over a directory listing at `depth` appends, entry by entry. */
  function ScanEntries(scanSubfolders: bool, extensions: seq<string>, entries: seq<FsNode>, depth: nat): (found: seq<Path>)
    ensures forall p :: p in found ==> IsSupportedExt(extensions, p)
    decreases entries, 1
  {
    if entries == [] then []
    else
      ScanEntries(scanSubfolders, extensions, entries[..|entries| - 1], depth)
      + Visit(scanSubfolders, extensions, entries[|entries| - 1], depth + 1)
  }

  /**
   * One path handled by the scanners: a directory is scanned at `dirDepth`,
   * a supported file is taken, anything else is skipped.
   */
  function Visit(scanSubfolders: bool, extensions: seq<string>, e: FsNode, dirDepth: nat): (found: seq<Path>)
    ensures forall p :: p in found ==> IsSupportedExt(extensions, p)
    decreases e, 1
  {
    match e
    case Dir(_, _, _) => ScanDir(scanSubfolders, extensions, e, dirDepth)
    case File(p) => if IsSupportedExt(extensions, p) then [p] else []
    case Other(_) => []
  }

  /** One more listing entry extends the scan by what that entry contributes. */
  lemma ScanEntriesSnoc(scanSubfolders: bool, extensions: seq<string>, entries: seq<FsNode>, i: nat, depth: nat)
    requires i < |entries|
    ensures ScanEntries(scanSubfolders, extensions, entries[..i + 1], depth)
      == ScanEntries(scanSubfolders, extensions, entries[..i], depth) + Visit(scanSubfolders, extensions, entries[i], depth + 1)
  {
    assert entries[..i + 1][..i] == entries[..i];
  }

  /** The three ways a listing entry contributes to a scan. */
  lemma VisitCases(scanSubfolders: bool, extensions: seq<string>, e: FsNode, dirDepth: nat)
    ensures e.Dir? ==> Visit(scanSubfolders, extensions, e, dirDepth) == ScanDir(scanSubfolders, extensions, e, dirDepth)
    ensures e.File? && IsSupportedExt(extensions, e.path) ==> Visit(scanSubfolders, extensions, e, dirDepth) == [e.path]
    ensures !e.Dir? && !(e.File? && IsSupportedExt(extensions, e.path)) ==> Visit(scanSubfolders, extensions, e, dirDepth) == []
  {
  }

  /** Where the guard lets it run, the scan of a directory is the scan of its listing; otherwise nothing. */
  lemma ScanDirUnfold(scanSubfolders: bool, extensions: seq<string>, dir: FsNode, depth: nat)
    ensures ScanDir(scanSubfolders, extensions, dir, depth)
      == if DepthAllowed(scanSubfolders, depth) && dir.Dir? && dir.readable
         then ScanEntries(scanSubfolders, extensions, dir.entries, depth) else []
  {
  }

  /** What `scan_input_paths` collects from its list of roots, each scanned from depth 0. */
  function ScanRoots(scanSubfolders: bool, extensions: seq<string>, roots: seq<FsNode>): (found: seq<Path>)
    ensures forall p :: p in found ==> IsSupportedExt(extensions, p)
  {
    if roots == [] then []
    else
      ScanRoots(scanSubfolders, extensions, roots[..|roots| - 1])
      + Visit(scanSubfolders, extensions, roots[|roots| - 1], 0)
  }

  // A reference definition of the scan: every file path under a readable
  // directory, descending at most `levels` directory levels further, with
  // the extension filter applied afterwards.

  function AllFiles(dir: FsNode, levels: nat): seq<Path>
    decreases dir, 0
  {
    match dir
    case Dir(_, true, entries) => AllFilesIn(entries, levels)
    case _ => []
  }

  function AllFilesIn(entries: seq<FsNode>, levels: nat): seq<Path>
    decreases entries, 1
  {
    if entries == [] then []
    else AllFilesIn(entries[..|entries| - 1], levels) + AllFilesOf(entries[|entries| - 1], levels)
  }

  function AllFilesOf(e: FsNode, levels: nat): seq<Path>
    decreases e, 1
  {
    match e
    case Dir(_, _, _) => if levels > 0 then AllFiles(e, levels - 1) else []
    case File(p) => [p]
    case Other(_) => []
  }

  /** The paths of `s` that pass the extension filter, in order. */
  function FilterSupported(extensions: seq<string>, s: seq<Path>): seq<Path>
  {
    if s == [] then []
    else
      FilterSupported(extensions, s[..|s| - 1])
      + (if IsSupportedExt(extensions, s[|s| - 1]) then [s[|s| - 1]] else [])
  }

  lemma {:induction false} FilterSupportedAppend(extensions: seq<string>, a: seq<Path>, b: seq<Path>)
    ensures FilterSupported(extensions, a + b) == FilterSupported(extensions, a) + FilterSupported(extensions, b)
    decreases |b|
  {
    if b != [] {
      var b', last := b[..|b| - 1], b[|b| - 1];
      assert (a + b)[..|a + b| - 1] == a + b';
      assert (a + b)[|a + b| - 1] == last;
      FilterSupportedAppend(extensions, a, b');
      assert FilterSupported(extensions, a + b)
        == FilterSupported(extensions, a + b') + (if IsSupportedExt(extensions, last) then [last] else []);
    } else {
      assert a + b == a;
    }
  }

  /** The deepest level the scan may reach: `MAX_DEPTH_SCAN` with subfolders, 0 without. */
  function MaxLevel(scanSubfolders: bool): nat
  {
    if scanSubfolders then MAX_DEPTH_SCAN else 0
  }

  /**
   * Wherever the guard lets it run, `scan_recursively` at `depth` collects,
   * in order, exactly the supported files lying at most
   * `MaxLevel - depth` directory levels below `dir`.
   */
  lemma {:induction false} ScanDirIsFilteredFiles(scanSubfolders: bool, extensions: seq<string>, dir: FsNode, depth: nat)
    requires DepthAllowed(scanSubfolders, depth)
    ensures ScanDir(scanSubfolders, extensions, dir, depth)
      == FilterSupported(extensions, AllFiles(dir, MaxLevel(scanSubfolders) - depth))
    decreases dir, 0
  {
    match dir
    case Dir(_, true, entries) =>
      ScanEntriesIsFilteredFiles(scanSubfolders, extensions, entries, depth);
    case _ =>
  }

  lemma {:induction false} ScanEntriesIsFilteredFiles(scanSubfolders: bool, extensions: seq<string>, entries: seq<FsNode>, depth: nat)
    requires DepthAllowed(scanSubfolders, depth)
    ensures ScanEntries(scanSubfolders, extensions, entries, depth)
      == FilterSupported(extensions, AllFilesIn(entries, MaxLevel(scanSubfolders) - depth))
    decreases entries, 1
  {
    if entries != [] {
      var levels := MaxLevel(scanSubfolders) - depth;
      var init, last := entries[..|entries| - 1], entries[|entries| - 1];
      assert ScanEntries(scanSubfolders, extensions, entries, depth)
        == ScanEntries(scanSubfolders, extensions, init, depth) + Visit(scanSubfolders, extensions, last, depth + 1);
      assert AllFilesIn(entries, levels) == AllFilesIn(init, levels) + AllFilesOf(last, levels);
      ScanEntriesIsFilteredFiles(scanSubfolders, extensions, init, depth);
      VisitIsFilteredFiles(scanSubfolders, extensions, last, depth);
      FilterSupportedAppend(extensions, AllFilesIn(init, levels), AllFilesOf(last, levels));
    } else {
      assert AllFilesIn(entries, MaxLevel(scanSubfolders) - depth) == [];
      assert FilterSupported(extensions, []) == [];
    }
  }

  lemma {:induction false} VisitIsFilteredFiles(scanSubfolders: bool, extensions: seq<string>, e: FsNode, depth: nat)
    requires DepthAllowed(scanSubfolders, depth)
    ensures Visit(scanSubfolders, extensions, e, depth + 1)
      == FilterSupported(extensions, AllFilesOf(e, MaxLevel(scanSubfolders) - depth))
    decreases e, 1
  {
    var levels := MaxLevel(scanSubfolders) - depth;
    match e
    case Dir(_, _, _) =>
      if DepthAllowed(scanSubfolders, depth + 1) {
        assert AllFilesOf(e, levels) == AllFiles(e, levels - 1);
        ScanDirIsFilteredFiles(scanSubfolders, extensions, e, depth + 1);
      } else {
        assert AllFilesOf(e, levels) == [];
        assert ScanDir(scanSubfolders, extensions, e, depth + 1) == [];
      }
    case File(p) =>
      var kept := if IsSupportedExt(extensions, p) then [p] else [];
      assert [p][..0] == [];
      assert FilterSupported(extensions, [p]) == FilterSupported(extensions, []) + kept;
      AppendEmptyLeft(kept);
    case Other(_) =>
  }

  /** Without subfolder scanning nothing below depth 0 is visited. */
  lemma ScanDirFlatStopsBelowTop(extensions: seq<string>, dir: FsNode, depth: nat)
    requires depth > 0
    ensures ScanDir(false, extensions, dir, depth) == []
  {
  }

  /** With subfolder scanning nothing deeper than `MAX_DEPTH_SCAN` is visited. */
  lemma ScanDirDeepStopsPastMax(extensions: seq<string>, dir: FsNode, depth: nat)
    requires depth > MAX_DEPTH_SCAN
    ensures ScanDir(true, extensions, dir, depth) == []
  {
  }

  /** The supported files among a directory's own entries, in listing order. */
  function DirectFiles(extensions: seq<string>, entries: seq<FsNode>): seq<Path>
  {
    if entries == [] then []
    else
      DirectFiles(extensions, entries[..|entries| - 1])
      + (match entries[|entries| - 1]
         case File(p) => if IsSupportedExt(extensions, p) then [p] else []
         case _ => [])
  }

  /** Without subfolder scanning, a readable directory yields exactly its own supported files. */
  lemma {:induction false} ScanFlatIsDirectFiles(extensions: seq<string>, entries: seq<FsNode>)
    ensures ScanEntries(false, extensions, entries, 0) == DirectFiles(extensions, entries)
  {
    if entries != [] {
      var init, last := entries[..|entries| - 1], entries[|entries| - 1];
      ScanFlatIsDirectFiles(extensions, init);
      if last.Dir? {
        assert Visit(false, extensions, last, 1) == [];
      }
    }
  }
}
