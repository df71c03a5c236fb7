/** The JSON store: documents kept as files below one base directory. Every
    operation first maps its relative path to a file below that directory
    (`_resolve_path`) and refuses paths that are absolute or that resolve to
    somewhere outside it.

    The directory is a map from resolved absolute paths (segment lists) to
    the JSON value each file holds. `write` goes through a temporary file and
    an atomic rename, so a file holds either its old or its new value; the
    model updates the map in one step. */
module Storage {
  import opened Wrappers
  import opened JsonValue
  import opened Paths

  /** `_resolve_path(relative_path)`: the resolved absolute path of the file
      `relative_path` names below `baseDir`. */
  function ResolvePath(baseDir: Path, relativePath: string): (r: Result<seq<string>>)
    requires baseDir.absolute && Canonical(baseDir)
    ensures Parse(relativePath).absolute ==> r == Err(PathTraversal(relativePath))
    ensures r.Ok? ==> Normal(r.value) && baseDir.segments <= r.value
    ensures r.Err? ==> r.error == PathTraversal(relativePath)
  {
    var target := Parse(relativePath);
    if target.absolute then Err(PathTraversal(relativePath))
    else
      var full := Resolved(Join(baseDir, target));
      if Within(full, baseDir) then Ok(full.segments) else Err(PathTraversal(relativePath))
  }

  /** A relative path of plain names resolves to the base directory followed
      by those names: nothing is rewritten on the way. */
  lemma ResolvePlainPath(baseDir: Path, relativePath: string)
    requires baseDir.absolute && Canonical(baseDir) && Normal(baseDir.segments)
    requires !Parse(relativePath).absolute && Normal(Parse(relativePath).segments)
    ensures ResolvePath(baseDir, relativePath) == Ok(baseDir.segments + Parse(relativePath).segments)
  {
    var t := Parse(relativePath);
    var segs := baseDir.segments + t.segments;
    ResolveFromBase(baseDir.segments, t.segments);
    ResolveNormal(baseDir.segments, t.segments);
    assert Resolved(Join(baseDir, t)) == Path(true, segs);
    assert baseDir.segments <= segs;
  }

  /** A path that starts by leaving the base directory and never comes back
      into it is refused: `../x` for any `x` made of plain names. */
  lemma ResolveRejectsParent(baseDir: Path, name: string)
    requires baseDir.absolute && Canonical(baseDir) && Normal(baseDir.segments) && |baseDir.segments| > 0
    requires IsName(name) && name != baseDir.segments[|baseDir.segments| - 1]
    ensures ResolvePath(baseDir, "../" + name) == Err(PathTraversal("../" + name))
  {
    ParseParent(name);
    var b := baseDir.segments;
    ResolveUpOne(b, name);
    assert Resolve([], b + ["..", name])[|b| - 1] == name;
  }

  /** `Path("../" + name)` is the parent marker followed by the name. */
  lemma ParseParent(name: string)
    requires IsName(name)
    ensures Parse("../" + name) == Path(false, ["..", name])
  {
    var target := Path(false, ["..", name]);
    assert ToString(target) == "../" + name by {
      assert JoinSlash(["..", name]) == ".." + "/" + JoinSlash([name]);
    }
    ParseToString(target);
  }

  /** Below a resolved directory, `../name` resolves to a sibling. */
  lemma ResolveUpOne(b: seq<string>, name: string)
    requires Normal(b) && |b| > 0 && IsName(name)
    ensures Resolve([], b + ["..", name]) == b[..|b| - 1] + [name]
  {
    assert ["..", name] == [".."] + [name];
    ResolveFromBase(b, ["..", name]);
    ResolveUp(b, [name]);
    ResolveNormal(b[..|b| - 1], [name]);
  }

  /** The files below the base directory, by resolved absolute path. A
      directory is not stored: it exists when it is the base directory or
      when a file lies below it (`write` creates the parents of its file). */
  type Files = map<seq<string>, Document>

  /** The content of a stored file: a JSON document, or bytes `json.load`
      cannot decode (text that is not JSON, or bytes that are not UTF-8). */
  datatype Document = Parsed(doc: Json) | Garbled

  /** What the directory may hold: files strictly below `baseDir`, none of
      them below another file, as in any file system. */
  ghost predicate Inside(baseDir: Path, files: Files) {
    && (forall k :: k in files ==> Normal(k) && baseDir.segments < k)
    && (forall k, k' :: k in files && k' in files ==> !(k < k'))
  }

  /** `k` names a directory: the base directory, or one a file lies below. */
  predicate IsDir(baseDir: Path, files: Files, k: seq<string>) {
    k == baseDir.segments || exists k' | k' in files.Keys :: k < k'
  }

  /** A file lies on the way to `k`: one of its parents is not a directory. */
  predicate UnderFile(files: Files, k: seq<string>) {
    exists a | a in files.Keys :: a < k
  }

  /** `exists(relative_path)` on the directory `files`: the path names a
      stored file or a directory. */
  function ExistsIn(baseDir: Path, files: Files, relativePath: string): (r: Result<bool>)
    requires baseDir.absolute && Canonical(baseDir)
    ensures r.Err? <==> ResolvePath(baseDir, relativePath).Err?
    ensures r.Err? ==> r.error == PathTraversal(relativePath)
    ensures r.Ok? ==>
      (r.value <==> (ResolvePath(baseDir, relativePath).value in files
                     || IsDir(baseDir, files, ResolvePath(baseDir, relativePath).value)))
  {
    var k :- ResolvePath(baseDir, relativePath);
    Ok(k in files || IsDir(baseDir, files, k))
  }

  /** `read(relative_path)` on the directory `files`: the stored value, or the
      error `open` or `json.load` raises; a missing or undecodable file is
      never read as a default. */
  function Lookup(baseDir: Path, files: Files, relativePath: string): (r: Result<Json>)
    requires baseDir.absolute && Canonical(baseDir)
    ensures r.Ok? <==> && ResolvePath(baseDir, relativePath).Ok? && ResolvePath(baseDir, relativePath).value in files
                       && files[ResolvePath(baseDir, relativePath).value].Parsed?
    ensures r.Ok? ==> r.value == files[ResolvePath(baseDir, relativePath).value].doc
    ensures ResolvePath(baseDir, relativePath).Err? ==> r == Err(PathTraversal(relativePath))
    ensures (&& ResolvePath(baseDir, relativePath).Ok? && ResolvePath(baseDir, relativePath).value in files
             && files[ResolvePath(baseDir, relativePath).value].Garbled?)
            ==> r == Err(Undecodable(relativePath))
    ensures (ExistsIn(baseDir, files, relativePath) == Ok(true) && ResolvePath(baseDir, relativePath).value !in files)
            ==> r == Err(IsADirectory(relativePath))
    ensures ExistsIn(baseDir, files, relativePath) == Ok(false) ==>
      r == if UnderFile(files, ResolvePath(baseDir, relativePath).value) then Err(NotADirectory(relativePath))
           else Err(FileNotFound(relativePath))
  {
    var k :- ResolvePath(baseDir, relativePath);
    if k in files then (if files[k].Parsed? then Ok(files[k].doc) else Err(Undecodable(relativePath)))
    else if IsDir(baseDir, files, k) then Err(IsADirectory(relativePath))
    else if UnderFile(files, k) then Err(NotADirectory(relativePath))
    else Err(FileNotFound(relativePath))
  }

  /** `write(relative_path, data)` on the directory `files`: the returned path
      and the new directory. A write succeeds exactly when no file lies on
      the way to the target and the target is not a directory; it is then
      read back and seen by `exists`, and only the target file changes. A
      refused write changes nothing. */
  function Written(baseDir: Path, files: Files, relativePath: string, data: Json): (r: (Result<Path>, Files))
    requires baseDir.absolute && Canonical(baseDir)
    ensures r.0.Ok? <==> ResolvePath(baseDir, relativePath).Ok?
                         && !IsDir(baseDir, files, ResolvePath(baseDir, relativePath).value)
                         && !UnderFile(files, ResolvePath(baseDir, relativePath).value)
    ensures r.0.Ok? ==> r.0.value == Path(true, ResolvePath(baseDir, relativePath).value)
    ensures r.0.Ok? ==> Lookup(baseDir, r.1, relativePath) == Ok(data) && ExistsIn(baseDir, r.1, relativePath) == Ok(true)
    ensures r.0.Ok? ==> r.1.Keys == files.Keys + {r.0.value.segments}
    ensures r.0.Ok? ==> forall k :: k in files && k != r.0.value.segments ==> r.1[k] == files[k]
    ensures r.0.Err? ==> r.1 == files
    ensures (ResolvePath(baseDir, relativePath).Ok? && IsDir(baseDir, files, ResolvePath(baseDir, relativePath).value)
             && !UnderFile(files, ResolvePath(baseDir, relativePath).value))
            ==> r.0 == Err(IsADirectory(relativePath))
    ensures Inside(baseDir, files) ==> Inside(baseDir, r.1)
  {
    match ResolvePath(baseDir, relativePath)
    case Err(e) => (Err(e), files)
    case Ok(k) =>
      if UnderFile(files, k) then
        (Err(if k[..|k| - 1] in files then FileExists(relativePath) else NotADirectory(relativePath)), files)
      else if IsDir(baseDir, files, k) then (Err(IsADirectory(relativePath)), files)
      else (Ok(Path(true, k)), files[k := Parsed(data)])
  }

  /** `delete(relative_path)` on the directory `files`: true and the file is
      gone if it existed; false and nothing changed when nothing exists
      there; a directory cannot be unlinked. */
  function Removed(baseDir: Path, files: Files, relativePath: string): (r: (Result<bool>, Files))
    requires baseDir.absolute && Canonical(baseDir)
    ensures r.0 == Ok(true) <==> ResolvePath(baseDir, relativePath).Ok? && ResolvePath(baseDir, relativePath).value in files
    ensures r.0 == Ok(true) ==> r.1 == files - {ResolvePath(baseDir, relativePath).value}
    ensures Inside(baseDir, files) && r.0 == Ok(true) ==> Lookup(baseDir, r.1, relativePath) == Err(FileNotFound(relativePath))
    ensures r.0 == Ok(false) <==> ExistsIn(baseDir, files, relativePath) == Ok(false)
    ensures r.0 != Ok(true) ==> r.1 == files
    ensures ResolvePath(baseDir, relativePath).Err? ==> r.0 == Err(PathTraversal(relativePath))
    ensures ResolvePath(baseDir, relativePath).Ok? && r.0.Err? ==> r.0 == Err(IsADirectory(relativePath))
    ensures Inside(baseDir, files) ==> Inside(baseDir, r.1)
  {
    match ResolvePath(baseDir, relativePath)
    case Err(e) => (Err(e), files)
    case Ok(k) =>
      if k in files then (Ok(true), files - {k})
      else if IsDir(baseDir, files, k) then (Err(IsADirectory(relativePath)), files)
      else (Ok(false), files)
  }

  class JsonStore {
    const baseDir: Path
    var files: Files

    ghost predicate Valid()
      reads this
    {
      baseDir.absolute && Canonical(baseDir) && Inside(baseDir, files)
    }

    /** Opens the store on a directory that already holds `onDisk`. */
    constructor (dir: Path, onDisk: Files)
      requires dir.absolute && Canonical(dir) && Inside(dir, onDisk)
      ensures Valid() && baseDir == dir && files == onDisk
    {
      baseDir := dir;
      files := onDisk;
    }

    method Exists(relativePath: string) returns (r: Result<bool>)
      requires Valid()
      ensures r == ExistsIn(baseDir, files, relativePath)
    {
      var k :- ResolvePath(baseDir, relativePath);
      r := Ok(k in files || IsDir(baseDir, files, k));
    }

    method Read(relativePath: string) returns (r: Result<Json>)
      requires Valid()
      ensures r == Lookup(baseDir, files, relativePath)
    {
      var k :- ResolvePath(baseDir, relativePath);
      if k in files {
        r := if files[k].Parsed? then Ok(files[k].doc) else Err(Undecodable(relativePath));
      } else if IsDir(baseDir, files, k) {
        r := Err(IsADirectory(relativePath));
      } else if UnderFile(files, k) {
        r := Err(NotADirectory(relativePath));
      } else {
        r := Err(FileNotFound(relativePath));
      }
    }

    method Write(relativePath: string, data: Json) returns (r: Result<Path>)
      requires Valid()
      modifies this
      ensures Valid()
      ensures (r, files) == Written(baseDir, old(files), relativePath, data)
    {
      var k :- ResolvePath(baseDir, relativePath);
      if UnderFile(files, k) {
        r := Err(if k[..|k| - 1] in files then FileExists(relativePath) else NotADirectory(relativePath));
      } else if IsDir(baseDir, files, k) {
        r := Err(IsADirectory(relativePath));
      } else {
        files := files[k := Parsed(data)];
        r := Ok(Path(true, k));
      }
    }

    method Delete(relativePath: string) returns (r: Result<bool>)
      requires Valid()
      modifies this
      ensures Valid()
      ensures (r, files) == Removed(baseDir, old(files), relativePath)
    {
      var k :- ResolvePath(baseDir, relativePath);
      if k in files {
        files := files - {k};
        r := Ok(true);
      } else if IsDir(baseDir, files, k) {
        r := Err(IsADirectory(relativePath));
      } else {
        r := Ok(false);
      }
    }
  }
}
