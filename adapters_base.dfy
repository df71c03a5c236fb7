/** The package-manager-independent part of every adapter: the argv it
    builds around the manager's executable, the file names of its private
    cache below the shared JSON store, and the results it gives for
    operations a manager does not support. */
module Adapters {
  import opened Wrappers
  import opened JsonValue
  import opened Paths
  import opened Validation
  import opened Storage

  /** The message of the `ValueError` raised for an incomplete adapter. */
  const IncompleteAdapter: string := "Subclasses devem definir manager_id e executable_name."

  /** `build_command(*args)`: the executable, then the arguments as given. */
  function BuildCommand(executable: string, args: seq<string>): (argv: seq<string>)
    ensures |argv| == |args| + 1 && argv[0] == executable && argv[1..] == args
  {
    [executable] + args
  }

  /** `build_package_command(base_args, packages)`: every package name is
      sanitised in turn, and the first one refused stops the build. */
  function BuildPackageCommand(executable: string, baseArgs: seq<string>, packages: seq<string>): (r: Result<seq<string>>)
    ensures r.Ok? <==> forall i :: 0 <= i < |packages| ==> ValidPackageName(packages[i])
    ensures r.Ok? ==> r.value == [executable] + baseArgs + packages
    ensures r.Err? ==> exists k :: FirstInvalid(packages, k)
                                  && r.error == InvalidPackageName(packages[k], SanitizePackageName(packages[k]).error.problem)
  {
    var sanitized :- SanitizeAll(packages);
    Ok([executable] + baseArgs + sanitized)
  }

  /** Building a package command is building a safe command whose base is
      the executable followed by the base arguments. */
  lemma PackageCommandIsSafeCommand(executable: string, baseArgs: seq<string>, packages: seq<string>)
    ensures BuildPackageCommand(executable, baseArgs, packages) == BuildSafeCommand([executable] + baseArgs, packages)
  {
  }

  /** The two commands of the adapter tests: a valid name goes through, a
      shell command is refused. */
  lemma PackageCommandExamples()
    ensures BuildPackageCommand("dummy", ["uninstall"], ["valid-package"]) == Ok(["dummy", "uninstall", "valid-package"])
    ensures BuildPackageCommand("dummy", ["uninstall"], ["rm -rf /"])
         == Err(InvalidPackageName("rm -rf /", BadCharacters))
  {
    PlainNameAccepted("valid-package");
    assert forall i :: 0 <= i < |["valid-package"]| ==> ValidPackageName(["valid-package"][i]);
    assert ["dummy"] + ["uninstall"] + ["valid-package"] == ["dummy", "uninstall", "valid-package"];
    BadCharacterRejected("rm -rf /", 2);
    var k :| FirstInvalid(["rm -rf /"], k)
             && BuildPackageCommand("dummy", ["uninstall"], ["rm -rf /"]).error
                == InvalidPackageName(["rm -rf /"][k], SanitizePackageName(["rm -rf /"][k]).error.problem);
  }

  /** `s.lstrip("/")`. */
  function LStripSlash(s: string): (r: string)
    ensures |r| <= |s| && r == s[|s| - |r|..]
    ensures forall i :: 0 <= i < |s| - |r| ==> s[i] == '/'
    ensures r == [] || r[0] != '/'
  {
    if s != [] && s[0] == '/' then LStripSlash(s[1..]) else s
  }

  /** `Path("adapters") / manager_id / clean_name`. */
  function CachePath(managerId: string, relativeName: string): Path {
    Join(Join(Parse("adapters"), Parse(managerId)), Parse(LStripSlash(relativeName)))
  }

  /** `_adapter_storage_path(relative_name)`: the text of the cache path. */
  function AdapterStoragePath(managerId: string, relativeName: string): string {
    ToString(CachePath(managerId, relativeName))
  }

  /** The cache path, read back as the store reads it, is `adapters`, the
      manager id's segments and the segments of the name with its leading
      slashes stripped: a name can never make it absolute. */
  lemma AdapterStoragePathParts(managerId: string, relativeName: string)
    requires !Parse(managerId).absolute
    ensures Parse(AdapterStoragePath(managerId, relativeName))
         == Path(false, ["adapters"] + Parse(managerId).segments + Parse(LStripSlash(relativeName)).segments)
  {
    CachePathSegments(managerId, relativeName);
    SegmentsConcat(Parse("adapters").segments, Parse(managerId).segments, Parse(LStripSlash(relativeName)).segments);
    ParseToString(CachePath(managerId, relativeName));
  }

  /** The cache path before it is printed. */
  lemma CachePathSegments(managerId: string, relativeName: string)
    requires !Parse(managerId).absolute
    ensures Parse("adapters").segments == ["adapters"]
    ensures CachePath(managerId, relativeName)
         == Path(false, ["adapters"] + Parse(managerId).segments + Parse(LStripSlash(relativeName)).segments)
  {
    assert Parse("adapters") == Path(false, ["adapters"]) by {
      assert forall i :: 0 <= i < |"adapters"| ==> "adapters"[i] != '/';
      PartsOfSegment("adapters");
    }
    var clean := LStripSlash(relativeName);
    assert !Parse(clean).absolute;
  }

  /** Segments of three canonical pieces make a canonical path. */
  lemma SegmentsConcat(a: seq<string>, b: seq<string>, c: seq<string>)
    requires forall i :: 0 <= i < |a| ==> IsSegment(a[i])
    requires forall i :: 0 <= i < |b| ==> IsSegment(b[i])
    requires forall i :: 0 <= i < |c| ==> IsSegment(c[i])
    ensures Canonical(Path(false, a + b + c))
  {
    var segs := a + b + c;
    forall i | 0 <= i < |segs| ensures IsSegment(segs[i]) {
      if i < |a| {
        assert segs[i] == a[i];
      } else if i < |a| + |b| {
        assert segs[i] == b[i - |a|];
      } else {
        assert segs[i] == c[i - |a| - |b|];
      }
    }
  }

  /** With a plain manager id and a name made of plain names, the cache file
      is `adapters/<manager_id>/<name>` below the store's directory. */
  lemma CachePathResolves(baseDir: Path, managerId: string, relativeName: string)
    requires baseDir.absolute && Canonical(baseDir) && Normal(baseDir.segments)
    requires IsName(managerId) && Normal(Parse(LStripSlash(relativeName)).segments)
    ensures ResolvePath(baseDir, AdapterStoragePath(managerId, relativeName))
         == Ok(baseDir.segments + (["adapters"] + [managerId] + Parse(LStripSlash(relativeName)).segments))
  {
    PartsOfSegment(managerId);
    AdapterStoragePathParts(managerId, relativeName);
    var name := Parse(LStripSlash(relativeName)).segments;
    CacheDirIsPlain(managerId);
    NamesConcat(["adapters"] + [managerId], name);
    ResolvePlainPath(baseDir, AdapterStoragePath(managerId, relativeName));
  }

  /** `adapters/<manager_id>` is made of plain names. */
  lemma CacheDirIsPlain(managerId: string)
    requires IsName(managerId)
    ensures Normal(["adapters"] + [managerId])
  {
    assert forall i :: 0 <= i < |"adapters"| ==> "adapters"[i] != '/';
    assert (["adapters"] + [managerId])[1] == managerId;
  }

  /** Plain names followed by plain names are plain names. */
  lemma NamesConcat(a: seq<string>, b: seq<string>)
    requires Normal(a) && Normal(b)
    ensures Normal(a + b)
  {
    forall i | |a| <= i < |a + b| ensures IsName((a + b)[i]) {
      assert (a + b)[i] == b[i - |a|];
    }
  }

  /** The cache of the adapter tests: after `cache_write`, `cache_exists`
      and `cache_read` see the value; `cache_delete` then removes it and
      `cache_exists` no longer sees it. */
  lemma CacheRoundTrip(baseDir: Path, files: Files, managerId: string, relativeName: string, data: Json)
    requires baseDir.absolute && Canonical(baseDir) && Normal(baseDir.segments) && Inside(baseDir, files)
    requires IsName(managerId) && Normal(Parse(LStripSlash(relativeName)).segments)
    requires var k := baseDir.segments + (["adapters"] + [managerId] + Parse(LStripSlash(relativeName)).segments);
      !IsDir(baseDir, files, k) && !UnderFile(files, k)
    ensures var path := AdapterStoragePath(managerId, relativeName);
      var written := Written(baseDir, files, path, data);
      && written.0.Ok?
      && ExistsIn(baseDir, written.1, path) == Ok(true)
      && Lookup(baseDir, written.1, path) == Ok(data)
      && Removed(baseDir, written.1, path).0 == Ok(true)
      && ExistsIn(baseDir, Removed(baseDir, written.1, path).1, path) == Ok(false)
  {
    var path := AdapterStoragePath(managerId, relativeName);
    CachePathResolves(baseDir, managerId, relativeName);
    var k := ResolvePath(baseDir, path).value;
    assert |k| > |baseDir.segments|;
    var written := Written(baseDir, files, path, data);
    assert written.1 == files[k := Parsed(data)];
    StoreAndRemove(baseDir, files, k, data);
  }

  /** Storing a file where no directory and no file are in the way and then
      removing it leaves no file and no directory there. */
  lemma StoreAndRemove(baseDir: Path, files: Files, k: seq<string>, data: Json)
    requires |k| > |baseDir.segments| && !IsDir(baseDir, files, k)
    ensures k in files[k := Parsed(data)]
    ensures !IsDir(baseDir, files[k := Parsed(data)] - {k}, k)
  {
    var after := files[k := Parsed(data)] - {k};
    forall k' | k' in after ensures !(k < k') {
      assert k' in files;
    }
  }

  /** A concrete adapter: its manager id, its executable and the store its
      cache lives in. */
  class Adapter {
    const managerId: string
    const executableName: string
    const storage: JsonStore

    constructor (managerId: string, executableName: string, storage: JsonStore)
      requires managerId != "" && executableName != ""
      ensures this.managerId == managerId && this.executableName == executableName
      ensures this.storage == storage
    {
      this.managerId := managerId;
      this.executableName := executableName;
      this.storage := storage;
    }

    /** `get_dependency_tree(package)` when the manager does not support
        it. */
    function DependencyTree(package: Option<string>): (r: Json)
      ensures Unsupported(r, managerId, "tree", JObj([]))
      ensures Get(r.fields, "package") == Some(if package.Some? then JStr(package.value) else JNull)
    {
      var r := JObj([("manager", JStr(managerId)), ("package", if package.Some? then JStr(package.value) else JNull),
                     ("tree", JObj([])), ("supported", JBool(false)),
                     ("message", JStr("Dependency tree not implemented for this manager"))]);
      GetAt(r.fields, 1, "package");
      GetAt(r.fields, 2, "tree");
      assert r.fields[1].0[0] == 'p' && "supported"[0] == 's';
      GetAt(r.fields, 3, "supported");
      r
    }

    /** `scan_vulnerabilities()` when the manager does not support it. */
    function Vulnerabilities(): (r: Json)
      ensures Unsupported(r, managerId, "vulnerabilities", JArr([]))
    {
      var r := JObj([("manager", JStr(managerId)), ("vulnerabilities", JArr([])), ("supported", JBool(false)),
                     ("message", JStr("Vulnerability scanning not implemented for this manager"))]);
      GetAt(r.fields, 1, "vulnerabilities");
      GetAt(r.fields, 2, "supported");
      r
    }

    /** `export_lockfile()` when the manager does not support it. */
    function Lockfile(): (r: Json)
      ensures Unsupported(r, managerId, "lockfile", JObj([]))
    {
      var r := JObj([("manager", JStr(managerId)), ("lockfile", JObj([])), ("supported", JBool(false)),
                     ("message", JStr("Lockfile export not implemented for this manager"))]);
      GetAt(r.fields, 1, "lockfile");
      GetAt(r.fields, 2, "supported");
      r
    }

    /** `cache_write(name, data)`. */
    method CacheWrite(name: string, data: Json) returns (r: Result<Path>)
      requires storage.Valid()
      modifies storage
      ensures storage.Valid()
      ensures (r, storage.files) == Written(storage.baseDir, old(storage.files), AdapterStoragePath(managerId, name), data)
    {
      r := storage.Write(AdapterStoragePath(managerId, name), data);
    }

    /** `cache_read(name)`. */
    method CacheRead(name: string) returns (r: Result<Json>)
      requires storage.Valid()
      ensures r == Lookup(storage.baseDir, storage.files, AdapterStoragePath(managerId, name))
    {
      r := storage.Read(AdapterStoragePath(managerId, name));
    }

    /** `cache_exists(name)`. */
    method CacheExists(name: string) returns (r: Result<bool>)
      requires storage.Valid()
      ensures r == ExistsIn(storage.baseDir, storage.files, AdapterStoragePath(managerId, name))
    {
      r := storage.Exists(AdapterStoragePath(managerId, name));
    }

    /** `cache_delete(name)`. */
    method CacheDelete(name: string) returns (r: Result<bool>)
      requires storage.Valid()
      modifies storage
      ensures storage.Valid()
      ensures (r, storage.files) == Removed(storage.baseDir, old(storage.files), AdapterStoragePath(managerId, name))
    {
      r := storage.Delete(AdapterStoragePath(managerId, name));
    }
  }

  /** The result of an operation the manager does not support: the manager
      id, `supported` false, and an empty payload under `key`. */
  predicate Unsupported(r: Json, managerId: string, key: string, empty: Json) {
    && r.JObj?
    && Get(r.fields, "manager") == Some(JStr(managerId))
    && Get(r.fields, "supported") == Some(JBool(false))
    && Get(r.fields, key) == Some(empty)
  }

  /** `BaseAdapter.__init__`: an adapter without a manager id or without an
      executable name is refused with a `ValueError`. */
  method NewAdapter(managerId: string, executableName: string, storage: JsonStore) returns (r: Result<Adapter>)
    ensures r.Err? <==> managerId == "" || executableName == ""
    ensures r.Err? ==> r.error == ValueError(IncompleteAdapter)
    ensures r.Ok? ==> r.value.managerId == managerId && r.value.executableName == executableName
                      && r.value.storage == storage
  {
    if managerId == "" || executableName == "" {
      return Err(ValueError(IncompleteAdapter));
    }
    var a := new Adapter(managerId, executableName, storage);
    r := Ok(a);
  }
}
