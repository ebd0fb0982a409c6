/** Paths and the file operations of `FileHandler`, over an abstract
    filesystem held as a map from absolute paths to file contents.

    A path is modelled the way `pathlib.PurePosixPath` sees it: absolute or
    not, and a list of components, with empty components and `.` dropped.
    Symbolic links are not modelled, so resolving a path only makes it
    absolute and folds `..` components lexically. */
module FileHandler {
  import opened Text
  import opened Pieces

  datatype Path = Path(absolute: bool, parts: seq<string>)

  /** A component `pathlib` keeps: non-empty, not `.`, no separator. */
  predicate IsPart(x: string) {
    x != "" && x != "." && '/' !in x
  }

  predicate WellFormed(p: Path) {
    forall i :: 0 <= i < |p.parts| ==> IsPart(p.parts[i])
  }

  predicate NoDotDot(xs: seq<string>) {
    forall i :: 0 <= i < |xs| ==> xs[i] != ".."
  }

  /** A fully resolved path, as `Path.resolve()` returns: absolute, well
      formed and without `..`. */
  type Base = p: Path | p.absolute && WellFormed(p) && NoDotDot(p.parts)
    witness Path(true, [])

  /** The components `pathlib` keeps from a split on `/`. */
  function Components(xs: seq<string>): (r: seq<string>)
    ensures |r| <= |xs|
    ensures forall i :: 0 <= i < |r| ==> IsPart(r[i])
  {
    if xs == [] then []
    else (if IsPart(xs[0]) then [xs[0]] else []) + Components(xs[1..])
  }

  /** `Path(s)`: absolute exactly when `s` starts with `/`. */
  function ParsePath(s: string): (p: Path)
    ensures WellFormed(p)
    ensures p.absolute <==> |s| > 0 && s[0] == '/'
  {
    Path(|s| > 0 && s[0] == '/', Components(Split(s, '/')))
  }

  /** `str(path)`. */
  function PathStr(p: Path): string {
    if p.absolute then "/" + Join(p.parts, "/")
    else if p.parts == [] then "."
    else Join(p.parts, "/")
  }

  lemma {:induction false} ComponentsKeep(xs: seq<string>)
    requires forall i :: 0 <= i < |xs| ==> IsPart(xs[i])
    ensures Components(xs) == xs
    decreases |xs|
  {
    if xs != [] {
      ComponentsKeep(xs[1..]);
      assert [xs[0]] + xs[1..] == xs;
    }
  }

  lemma {:induction false} ComponentsAppend(xs: seq<string>, ys: seq<string>)
    ensures Components(xs + ys) == Components(xs) + Components(ys)
    decreases |xs|
  {
    if xs == [] {
      assert xs + ys == ys;
    } else {
      assert (xs + ys)[1..] == xs[1..] + ys;
      ComponentsAppend(xs[1..], ys);
    }
  }

  lemma JoinStartsWithFirst(xs: seq<string>, sep: string)
    requires |xs| >= 1
    ensures |Join(xs, sep)| >= |xs[0]| && Join(xs, sep)[..|xs[0]|] == xs[0]
  {
    if |xs| > 1 {
      assert Join(xs, sep) == xs[0] + (sep + Join(xs[1..], sep));
    }
  }

  /** Printing a well-formed path and parsing it again gives it back. */
  lemma PathRoundTrip(p: Path)
    requires WellFormed(p)
    ensures ParsePath(PathStr(p)) == p
  {
    var j := Join(p.parts, "/");
    ComponentsKeep(p.parts);
    if p.absolute {
      var s := "/" + j;
      assert s == [] + ['/'] + j;
      SplitAtSeparator([], '/', j);
      var xs := [[]] + Split(j, '/');
      assert Split(s, '/') == xs;
      assert xs[1..] == Split(j, '/');
      assert Components(xs) == Components(Split(j, '/'));
      if p.parts == [] {
        assert j == [];
        assert Split(j, '/') == [[]];
        assert Components([[]]) == [];
      } else {
        SplitJoin(p.parts, '/');
      }
    } else if p.parts == [] {
      SplitWithoutSeparator(".", '/');
    } else {
      SplitJoin(p.parts, '/');
      JoinStartsWithFirst(p.parts, "/");
      assert j[0] == p.parts[0][0];
      assert p.parts[0][0] in p.parts[0];
    }
  }

  /** `self._resolve_path(file_path)` for a handler whose base is `base`:
      an absolute path as it is, a relative one appended to the base. */
  function Resolve(base: Base, s: string): (r: Path)
    ensures r.absolute && WellFormed(r)
    ensures ParsePath(s).absolute ==> r == ParsePath(s)
    ensures !ParsePath(s).absolute ==> r.parts == base.parts + ParsePath(s).parts
  {
    var p := ParsePath(s);
    if p.absolute then p else Path(true, base.parts + p.parts)
  }

  /** One component of a lexical `..` fold. */
  function Step(acc: seq<string>, x: string): seq<string> {
    if x == ".." then (if acc == [] then [] else acc[..|acc| - 1]) else acc + [x]
  }

  lemma StepKeepsParts(acc: seq<string>, x: string)
    requires forall i :: 0 <= i < |acc| ==> IsPart(acc[i]) && acc[i] != ".."
    requires IsPart(x)
    ensures forall i :: 0 <= i < |Step(acc, x)| ==> IsPart(Step(acc, x)[i]) && Step(acc, x)[i] != ".."
  {
    if x == ".." {
      if acc != [] {
        assert forall i :: 0 <= i < |acc| - 1 ==> acc[..|acc| - 1][i] == acc[i];
      }
    } else {
      assert forall i :: 0 <= i < |acc| ==> (acc + [x])[i] == acc[i];
    }
  }

  lemma PlainStep(acc: seq<string>, xs: seq<string>)
    requires xs != []
    ensures forall i :: 0 <= i < |xs| - 1 ==> xs[1..][i] == xs[i + 1]
    ensures NoDotDot(xs) ==> NoDotDot(xs[1..]) && Step(acc, xs[0]) + xs[1..] == acc + xs
  {
    if NoDotDot(xs) {
      assert xs[0] != "..";
      assert acc + [xs[0]] + xs[1..] == acc + xs;
    }
  }

  /** Folds `..` components into the components before them; at the root
      `..` stays at the root. */
  function Fold(acc: seq<string>, xs: seq<string>): (r: seq<string>)
    requires forall i :: 0 <= i < |acc| ==> IsPart(acc[i]) && acc[i] != ".."
    requires forall i :: 0 <= i < |xs| ==> IsPart(xs[i])
    ensures forall i :: 0 <= i < |r| ==> IsPart(r[i]) && r[i] != ".."
    ensures NoDotDot(xs) ==> r == acc + xs
    decreases |xs|
  {
    if xs == [] then acc
    else
      StepKeepsParts(acc, xs[0]);
      PlainStep(acc, xs);
      Fold(Step(acc, xs[0]), xs[1..])
  }

  /** `Path(base_path).resolve()` in the working directory `cwd`, with no
      symbolic links: the result is a `Base`, and a path without `..` is
      simply made absolute. */
  function Resolved(cwd: Base, basePath: string): (r: Base)
    ensures NoDotDot(ParsePath(basePath).parts) ==> r == Resolve(cwd, basePath)
  {
    var p := Resolve(cwd, basePath);
    Path(true, Fold([], p.parts))
  }

  /** `FileHandler()` works in the current directory. */
  lemma DefaultBaseIsCwd(cwd: Base)
    ensures Resolved(cwd, ".") == cwd
  {
    SplitWithoutSeparator(".", '/');
    assert ParsePath(".").parts == [];
  }

  /** `path` lies at or below `base`. */
  predicate Inside(path: Path, base: Path) {
    |base.parts| <= |path.parts| && path.parts[..|base.parts|] == base.parts
  }

  /** `get_relative_path`: the path relative to the base when it lies
      inside it, and the resolved path otherwise. Either way it names the
      same file, and it is relative exactly when the file is inside the
      base. */
  function GetRelativePath(base: Base, s: string): (r: string)
    ensures Resolve(base, r) == Resolve(base, s)
    ensures !ParsePath(r).absolute <==> Inside(Resolve(base, s), base)
  {
    var p := Resolve(base, s);
    if Inside(p, base) then
      var q := Path(false, p.parts[|base.parts|..]);
      PathRoundTrip(q);
      assert base.parts + q.parts == p.parts;
      PathStr(q)
    else
      PathRoundTrip(p);
      PathStr(p)
  }

  /** The filesystem: file contents by path, the directories, and the files
      that exist but cannot be opened. */
  datatype Fs = Fs(files: map<Path, string>, dirs: set<Path>, locked: set<Path>)

  /** The proper ancestors of `p`, nearest last. */
  function Ancestor(p: Path, i: nat): Path
    requires i < |p.parts|
  {
    Path(p.absolute, p.parts[..i])
  }

  function Ancestors(p: Path): set<Path> {
    set i | 0 <= i < |p.parts| :: Ancestor(p, i)
  }

  /** Some proper ancestor of `p` is an existing file. */
  predicate AncestorIsFile(fs: Fs, p: Path) {
    exists i :: 0 <= i < |p.parts| && Ancestor(p, i) in fs.files
  }

  /** Python's universal-newline translation, which a file opened for
      reading in text mode applies: each `\r\n`, and then each remaining
      `\r`, becomes `\n`. */
  function Universal(s: string): (r: string)
    ensures '\r' !in r
    ensures |r| <= |s|
    ensures '\r' !in s ==> r == s
  {
    if s == [] then []
    else if s[0] == '\r' then "\n" + Universal(if |s| > 1 && s[1] == '\n' then s[2..] else s[1..])
    else [s[0]] + Universal(s[1..])
  }

  /** Reading translated text again changes nothing. */
  lemma UniversalIdempotent(s: string)
    ensures Universal(Universal(s)) == Universal(s)
  {
  }

  /** `\r\n` reads as one line break. */
  lemma UniversalCrLf(x: string, y: string)
    requires '\r' !in x
    ensures Universal(x + "\r\n" + y) == x + "\n" + Universal(y)
  {
    assert x + "\r\n" + y == x + ("\r\n" + y);
    UniversalAfter(x, "\r\n" + y);
    assert ("\r\n" + y)[2..] == y;
  }

  /** A `\r` not followed by `\n` reads as one line break too. */
  lemma UniversalCr(x: string, y: string)
    requires '\r' !in x && !(|y| > 0 && y[0] == '\n')
    ensures Universal(x + "\r" + y) == x + "\n" + Universal(y)
  {
    assert x + "\r" + y == x + ("\r" + y);
    UniversalAfter(x, "\r" + y);
    assert ("\r" + y)[1..] == y;
  }

  /** A prefix without `\r` passes through unchanged. */
  lemma {:induction false} UniversalAfter(x: string, y: string)
    requires '\r' !in x
    ensures Universal(x + y) == x + Universal(y)
    decreases |x|
  {
    if x != [] {
      assert (x + y)[1..] == x[1..] + y;
      UniversalAfter(x[1..], y);
    } else {
      assert x + y == y;
    }
  }

  /** The bytes of a file on disk, as stored, when it can be opened. */
  function ReadAt(fs: Fs, p: Path): Option<string> {
    if p in fs.files && p !in fs.locked then Some(fs.files[p]) else None
  }

  /** `read_file`: the contents, newline-translated by the text-mode read,
      or `None` when the file is missing or cannot be opened. */
  function ReadFile(fs: Fs, base: Base, s: string): (r: Option<string>)
    ensures r.None? <==> Resolve(base, s) !in fs.files || Resolve(base, s) in fs.locked
    ensures r.Some? ==> r.value == Universal(fs.files[Resolve(base, s)])
    ensures r.Some? ==> '\r' !in r.value
  {
    match ReadAt(fs, Resolve(base, s))
    case Some(text) => Some(Universal(text))
    case None => None
  }

  /** `write_file`: creates the parent directories, then writes. It fails,
      leaving every file as it was, when an ancestor is a file, when the
      target is a directory (the root included), or when the target cannot
      be opened; in the last two cases the parents have been created. */
  function WriteFile(fs: Fs, base: Base, s: string, content: string): (r: (Fs, bool))
    ensures var p := Resolve(base, s);
      r.1 <==> !AncestorIsFile(fs, p) && p.parts != [] && p !in fs.dirs && p !in fs.locked
    ensures r.1 ==> r.0.files == fs.files[Resolve(base, s) := content]
    ensures !r.1 ==> r.0.files == fs.files
    ensures r.0.locked == fs.locked
    ensures var p := Resolve(base, s);
      !AncestorIsFile(fs, p) ==> forall i :: 0 <= i < |p.parts| ==> Ancestor(p, i) in r.0.dirs
  {
    var p := Resolve(base, s);
    if AncestorIsFile(fs, p) then (fs, false)
    else
      var made := fs.(dirs := fs.dirs + Ancestors(p));
      if p.parts == [] || p in fs.dirs || p in fs.locked then (made, false)
      else (made.(files := fs.files[p := content]), true)
  }

  /** A successful write is read back, with its line ends translated; so
      exactly, when the content holds no `\r`. The text-mode write leaves
      `\n` as it is on POSIX. */
  lemma ReadAfterWrite(fs: Fs, base: Base, s: string, content: string)
    requires WriteFile(fs, base, s, content).1
    ensures ReadFile(WriteFile(fs, base, s, content).0, base, s) == Some(Universal(content))
    ensures '\r' !in content ==> ReadFile(WriteFile(fs, base, s, content).0, base, s) == Some(content)
  {
  }

  /** A write changes what no other path reads. */
  lemma WriteFrame(fs: Fs, base: Base, s: string, content: string, q: Path)
    requires q != Resolve(base, s)
    ensures ReadAt(WriteFile(fs, base, s, content).0, q) == ReadAt(fs, q)
  {
  }

  /** The filesystem is a tree below the root: every file and directory
      has all its ancestors as directories, and no path is both. */
  predicate Valid(fs: Fs) {
    Path(true, []) in fs.dirs
    && (forall p :: p in fs.files ==> p.absolute && p !in fs.dirs)
    && (forall p, i :: p in fs.files && 0 <= i < |p.parts| ==> Ancestor(p, i) in fs.dirs)
    && (forall p :: p in fs.dirs ==> p.absolute)
    && (forall p, i :: p in fs.dirs && 0 <= i < |p.parts| ==> Ancestor(p, i) in fs.dirs)
  }

  lemma AncestorOfAncestor(p: Path, i: nat, j: nat)
    requires j < i < |p.parts|
    ensures Ancestor(Ancestor(p, i), j) == Ancestor(p, j)
  {
    assert p.parts[..i][..j] == p.parts[..j];
  }

  lemma AncestorsKeepTree(fs: Fs, p: Path)
    requires Valid(fs) && p.absolute
    ensures var d := fs.dirs + Ancestors(p);
      forall q, i :: q in d && 0 <= i < |q.parts| ==> Ancestor(q, i) in d
  {
    var d := fs.dirs + Ancestors(p);
    forall q, i | q in d && 0 <= i < |q.parts| ensures Ancestor(q, i) in d {
      if q !in fs.dirs {
        var k :| 0 <= k < |p.parts| && q == Ancestor(p, k);
        AncestorOfAncestor(p, k, i);
      }
    }
  }

  /** Writing keeps the filesystem a tree. */
  lemma WriteKeepsValid(fs: Fs, base: Base, s: string, content: string)
    requires Valid(fs)
    ensures Valid(WriteFile(fs, base, s, content).0)
  {
    var p := Resolve(base, s);
    if !AncestorIsFile(fs, p) {
      AncestorsKeepTree(fs, p);
      assert p.parts != [] ==> Ancestor(p, 0) == Path(true, []);
      assert forall k :: 0 <= k < |p.parts| ==> Ancestor(p, k) !in fs.files;
      assert forall k :: 0 <= k < |p.parts| ==> |Ancestor(p, k).parts| < |p.parts|;
    }
  }

  /** `ensure_directory`: creates the directory and its ancestors; it fails,
      changing nothing, when the path or an ancestor is a file. */
  function EnsureDirectory(fs: Fs, base: Base, s: string): (r: (Fs, bool))
    ensures var p := Resolve(base, s);
      r.1 <==> p !in fs.files && !AncestorIsFile(fs, p)
    ensures var p := Resolve(base, s);
      r.1 ==> p in r.0.dirs && forall i :: 0 <= i < |p.parts| ==> Ancestor(p, i) in r.0.dirs
    ensures r.0.files == fs.files && r.0.locked == fs.locked
    ensures fs.dirs <= r.0.dirs
  {
    var p := Resolve(base, s);
    if p in fs.files || AncestorIsFile(fs, p) then (fs, false)
    else (fs.(dirs := fs.dirs + Ancestors(p) + {p}), true)
  }

  /** `os.path.join(a, b)` on POSIX: an absolute `b` replaces `a`;
      otherwise `b` follows `a`, with one `/` added unless `a` is empty or
      already ends with one. */
  function OsJoin(a: string, b: string): (r: string)
    ensures |b| > 0 && b[0] == '/' ==> r == b
    ensures |r| >= |b| && r[|r| - |b|..] == b
    ensures a != [] && !(|b| > 0 && b[0] == '/') ==> |r| >= |a| && r[..|a|] == a
  {
    if |b| > 0 && b[0] == '/' then b
    else if a == [] || a[|a| - 1] == '/' then a + b
    else a + "/" + b
  }

  lemma PartsAroundSlash(x: string, y: string)
    ensures ParsePath(x + "/" + y).parts == ParsePath(x).parts + ParsePath(y).parts
  {
    assert x + "/" + y == x + ['/'] + y;
    SplitAround(x, '/', y);
    ComponentsAppend(Split(x, '/'), Split(y, '/'));
  }

  lemma EmptyParts()
    ensures ParsePath([]) == Path(false, [])
  {
    assert Split([], '/') == [[]];
  }

  /** Joining onto a relative `b` appends its components to those of `a`. */
  lemma JoinAppendsParts(a: string, b: string)
    requires !(|b| > 0 && b[0] == '/')
    ensures ParsePath(OsJoin(a, b)) == Path(ParsePath(a).absolute, ParsePath(a).parts + ParsePath(b).parts)
  {
    EmptyParts();
    if a == [] {
      assert OsJoin(a, b) == b;
    } else if a[|a| - 1] == '/' {
      JoinAfterSlash(a[..|a| - 1], b);
      assert a[..|a| - 1] + "/" == a;
    } else {
      assert OsJoin(a, b) == a + "/" + b;
      PartsAroundSlash(a, b);
    }
  }

  lemma JoinAfterSlash(x: string, b: string)
    requires !(|b| > 0 && b[0] == '/')
    ensures ParsePath((x + "/") + b) == Path(ParsePath(x + "/").absolute, ParsePath(x + "/").parts + ParsePath(b).parts)
  {
    EmptyParts();
    assert x + "/" == x + "/" + [];
    PartsAroundSlash(x, []);
    assert (x + "/") + b == x + "/" + b;
    PartsAroundSlash(x, b);
    assert ((x + "/") + b)[0] == (x + "/")[0];
  }

  /** Nothing stands in the way of writing `s`: no file above it, and it is
      neither a directory nor unwritable. */
  predicate SaveTargetFree(fs: Fs, cwd: Base, s: string) {
    var p := Resolve(cwd, s);
    !AncestorIsFile(fs, p) && p !in fs.dirs && p !in fs.locked
  }

  /** `save_generated_test`: makes sure the output directory exists, writes
      the file at `os.path.join(output_dir, filename)`, and returns that
      joined path whether or not the write succeeded. Either the file now
      reads back as `content` (line ends translated) or no file changed; the
      write succeeds when the name is a plain component and the target is
      not below a file, a directory or unwritable. */
  function SaveGeneratedTest(fs: Fs, cwd: Base, outputDir: string, filename: string, content: string)
    : (r: (Fs, string))
    ensures r.1 == OsJoin(outputDir, filename)
    ensures ReadFile(r.0, cwd, r.1) == Some(Universal(content)) || r.0.files == fs.files
    ensures IsPart(filename) && SaveTargetFree(fs, cwd, OsJoin(outputDir, filename)) ==>
      ReadFile(r.0, cwd, r.1) == Some(Universal(content))
  {
    var base := Resolved(cwd, ".");
    DefaultBaseIsCwd(cwd);
    var made := EnsureDirectory(fs, base, outputDir).0;
    var path := OsJoin(outputDir, filename);
    var written := WriteFile(made, base, path, content);
    assert IsPart(filename) && SaveTargetFree(fs, cwd, path) ==> written.1 by {
      if IsPart(filename) && SaveTargetFree(fs, cwd, path) {
        DirectoryKeepsTargetFree(fs, cwd, outputDir, filename);
        SaveTargetParts(cwd, outputDir, filename);
      }
    }
    (written.0, path)
  }

  /** Creating the output directory leaves a free target free. */
  lemma DirectoryKeepsTargetFree(fs: Fs, cwd: Base, outputDir: string, filename: string)
    requires IsPart(filename) && SaveTargetFree(fs, cwd, OsJoin(outputDir, filename))
    ensures SaveTargetFree(EnsureDirectory(fs, cwd, outputDir).0, cwd, OsJoin(outputDir, filename))
  {
    var made := EnsureDirectory(fs, cwd, outputDir).0;
    var p := Resolve(cwd, OsJoin(outputDir, filename));
    var q := Resolve(cwd, outputDir);
    SaveTargetParts(cwd, outputDir, filename);
    assert p !in Ancestors(q) + {q} by {
      assert |q.parts| < |p.parts|;
    }
    assert !AncestorIsFile(made, p) by {
      assert made.files == fs.files;
    }
  }

  /** The target of a save is the output directory's path with the file
      name appended. */
  lemma SaveTargetParts(cwd: Base, outputDir: string, filename: string)
    requires IsPart(filename)
    ensures Resolve(cwd, OsJoin(outputDir, filename)).parts == Resolve(cwd, outputDir).parts + [filename]
  {
    var d := ParsePath(outputDir);
    assert ParsePath(OsJoin(outputDir, filename)) == Path(d.absolute, d.parts + [filename]) by {
      assert ParsePath(filename).parts == [filename] by {
        SplitWithoutSeparator(filename, '/');
      }
      JoinAppendsParts(outputDir, filename);
    }
    if !d.absolute {
      assert cwd.parts + (d.parts + [filename]) == cwd.parts + d.parts + [filename];
    }
  }


  /** A plain file name saved under a relative output directory lands in
      that directory below the working directory. */
  lemma SavedInOutputDir(cwd: Base, outputDir: string, filename: string)
    requires IsPart(filename) && !ParsePath(outputDir).absolute
    ensures Resolve(cwd, OsJoin(outputDir, filename)).parts
      == cwd.parts + ParsePath(outputDir).parts + [filename]
  {
    var dir := ParsePath(outputDir).parts;
    assert ParsePath(OsJoin(outputDir, filename)).parts == dir + [filename] by {
      JoinAppendsParts(outputDir, filename);
      SplitWithoutSeparator(filename, '/');
      assert ParsePath(filename).parts == [filename];
    }
    assert !ParsePath(OsJoin(outputDir, filename)).absolute by {
      JoinAppendsParts(outputDir, filename);
    }
    assert cwd.parts + (dir + [filename]) == cwd.parts + dir + [filename];
  }
}
