/** The validation layer: accept-or-reject checks on package names and
    manager ids, the argv builder that applies them, and the containment
    check that keeps paths below the application's base directory.

    Both name checks use a regular expression anchored with `^...$` and run
    with `re.match`. Python's `$` also matches just before a final "\n", so a
    name that is otherwise valid followed by one newline is accepted; the
    predicates below say exactly that. */
module Validation {
  import opened Wrappers
  import opened Text
  import opened Paths

  const MaxPackageNameLength: nat := 214
  const MaxManagerIdLength: nat := 50
  /** The last segment of the allowed base directory, `~/.package-audit`. */
  const BaseDirName: string := ".package-audit"

  /** The base directory every validated path must stay inside, below the
      user's home directory. */
  function AllowedBaseDir(home: Path): (base: Path)
    requires home.absolute
    ensures base.absolute && base.segments == home.segments + [BaseDirName]
  {
    Join(home, Path(false, [BaseDirName]))
  }

  /** A character of the class `[a-zA-Z0-9@/_.-]`. */
  predicate PackageChar(c: char) {
    ('a' <= c <= 'z') || ('A' <= c <= 'Z') || ('0' <= c <= '9')
    || c == '@' || c == '/' || c == '_' || c == '.' || c == '-'
  }

  predicate AllPackageChars(s: string) {
    forall i :: 0 <= i < |s| ==> PackageChar(s[i])
  }

  /** `re.match(r"^[a-zA-Z0-9@/_.-]+$", s)` succeeds. */
  predicate PackageNamePattern(s: string) {
    (|s| > 0 && AllPackageChars(s))
    || (|s| > 1 && s[|s| - 1] == '\n' && AllPackageChars(s[..|s| - 1]))
  }

  /** What the validation layer accepts as a package name, stated character
      by character: 1 to 214 characters, each in the class except that the
      last may be a newline after at least one other character, and no `..`. */
  predicate ValidPackageName(s: string) {
    && 0 < |s| <= MaxPackageNameLength
    && (forall i :: 0 <= i < |s| ==> PackageChar(s[i]) || (i == |s| - 1 > 0 && s[i] == '\n'))
    && !ContainsDotDot(s)
  }

  /** `sanitize_package_name`: the checks run in the order empty, too long,
      pattern, `..`; an accepted name is returned unchanged. */
  function SanitizePackageName(name: string): (r: Result<string>)
    ensures r.Ok? <==> ValidPackageName(name)
    ensures r.Ok? ==> r.value == name
    ensures r.Err? ==> r.error.InvalidPackageName? && r.error.input == name
    ensures r == Err(InvalidPackageName(name, Empty)) <==> name == ""
    ensures r == Err(InvalidPackageName(name, TooLong)) <==> |name| > MaxPackageNameLength
  {
    if name == "" then Err(InvalidPackageName(name, Empty))
    else if |name| > MaxPackageNameLength then Err(InvalidPackageName(name, TooLong))
    else if !PackageNamePattern(name) then Err(InvalidPackageName(name, BadCharacters))
    else if ContainsDotDot(name) then Err(InvalidPackageName(name, DotDot))
    else Ok(name)
  }

  /** Sanitising an accepted name again accepts it again, unchanged. */
  lemma SanitizePackageNameIdempotent(name: string)
    requires SanitizePackageName(name).Ok?
    ensures SanitizePackageName(SanitizePackageName(name).value) == SanitizePackageName(name)
  {
  }

  /** A character outside the class, other than a final newline, makes the
      pattern fail: a name of acceptable length holding one is refused as
      bad characters. */
  lemma BadCharacterRejected(s: string, i: nat)
    requires 0 < |s| <= MaxPackageNameLength && i < |s|
    requires !PackageChar(s[i]) && (s[i] != '\n' || i < |s| - 1)
    ensures SanitizePackageName(s) == Err(InvalidPackageName(s, BadCharacters))
  {
    if |s| > 1 && s[|s| - 1] == '\n' {
      assert s[..|s| - 1][i] == s[i];
    }
  }

  /** The names the validation layer must reject. */
  lemma PackageNameRejections()
    ensures SanitizePackageName("") == Err(InvalidPackageName("", Empty))
    ensures SanitizePackageName(seq(300, _ => 'a')) == Err(InvalidPackageName(seq(300, _ => 'a'), TooLong))
    ensures SanitizePackageName("../../etc/passwd") == Err(InvalidPackageName("../../etc/passwd", DotDot))
  {
    assert ContainsDotDot("../../etc/passwd") by {
      assert "../../etc/passwd"[0] == '.' && "../../etc/passwd"[1] == '.';
    }
    assert AllPackageChars("../../etc/passwd");
  }

  /** Shell metacharacters, spaces and embedded newlines: each of these
      names holds one at position 6 or 7. */
  const InjectionAttempts: seq<string> := [
    "lodash; rm -rf /", "lodash | cat /etc/passwd",
    "package$name", "package#name", "package name", "package\nname", "package;name"]

  /** Every injection attempt is refused as bad characters. */
  lemma InjectionRejected(k: nat)
    requires k < |InjectionAttempts|
    ensures SanitizePackageName(InjectionAttempts[k]) == Err(InvalidPackageName(InjectionAttempts[k], BadCharacters))
  {
    BadCharacterRejected(InjectionAttempts[k], if k < 2 then 6 else 7);
  }

  /** A name of plain letters, digits, `@`, `/`, `_` and `-` (no dot) of
      acceptable length is accepted. */
  lemma PlainNameAccepted(s: string)
    requires 0 < |s| <= MaxPackageNameLength
    requires forall i :: 0 <= i < |s| ==> PackageChar(s[i]) && s[i] != '.'
    ensures SanitizePackageName(s) == Ok(s)
  {
  }

  /** The names the validation layer must accept. */
  lemma PackageNameAcceptances()
    ensures SanitizePackageName("react") == Ok("react")
    ensures SanitizePackageName("@types/node") == Ok("@types/node")
    ensures SanitizePackageName("lodash-es") == Ok("lodash-es")
    ensures SanitizePackageName("test_package") == Ok("test_package")
  {
    PlainNameAccepted("react");
    PlainNameAccepted("@types/node");
    PlainNameAccepted("lodash-es");
    PlainNameAccepted("test_package");
  }

  /** Because `$` matches before a final newline, a valid name followed by
      "\n" is accepted and returned with the newline. */
  lemma TrailingNewlineAccepted(name: string)
    requires SanitizePackageName(name).Ok? && |name| < MaxPackageNameLength
    requires name[|name| - 1] != '.' && name[|name| - 1] != '\n'
    ensures SanitizePackageName(name + "\n") == Ok(name + "\n")
  {
    var s := name + "\n";
    assert s[..|s| - 1] == name;
    assert AllPackageChars(name);
    assert !ContainsDotDot(s) by {
      forall i | 0 <= i < |s| - 1 ensures !(s[i] == '.' && s[i + 1] == '.') {
        if i < |name| - 1 {
          assert s[i] == name[i] && s[i + 1] == name[i + 1];
        }
      }
    }
  }

  /** A character of `[a-z0-9_-]`. */
  predicate ManagerIdChar(c: char) {
    ('a' <= c <= 'z') || ('0' <= c <= '9') || c == '_' || c == '-'
  }

  predicate ManagerIdBody(s: string) {
    |s| > 0 && 'a' <= s[0] <= 'z' && forall i :: 1 <= i < |s| ==> ManagerIdChar(s[i])
  }

  /** `re.match(r"^[a-z][a-z0-9_-]*$", s)` succeeds. */
  predicate ManagerIdPattern(s: string) {
    ManagerIdBody(s) || (|s| > 1 && s[|s| - 1] == '\n' && ManagerIdBody(s[..|s| - 1]))
  }

  /** `sanitize_manager_id`: the pattern is checked first, then the length;
      an accepted id is returned unchanged. */
  function SanitizeManagerId(id: string): (r: Result<string>)
    ensures r.Ok? <==> ManagerIdPattern(id) && |id| <= MaxManagerIdLength
    ensures r.Ok? ==> r.value == id && 'a' <= id[0] <= 'z'
    ensures r.Ok? ==> forall i :: 1 <= i < |id| ==> ManagerIdChar(id[i]) || (i == |id| - 1 && id[i] == '\n')
    ensures r.Err? ==> r.error.InvalidPackageName? && r.error.input == id
  {
    if !ManagerIdPattern(id) then Err(InvalidPackageName(id, BadCharacters))
    else if |id| > MaxManagerIdLength then Err(InvalidPackageName(id, TooLong))
    else Ok(id)
  }

  lemma SanitizeManagerIdIdempotent(id: string)
    requires SanitizeManagerId(id).Ok?
    ensures SanitizeManagerId(SanitizeManagerId(id).value) == SanitizeManagerId(id)
  {
  }

  lemma ManagerIdExamples()
    ensures SanitizeManagerId("npm") == Ok("npm")
    ensures SanitizeManagerId("pip-tools") == Ok("pip-tools")
    ensures SanitizeManagerId("NPM").Err?
    ensures SanitizeManagerId("npm;rm").Err?
    ensures SanitizeManagerId(seq(100, _ => 'a')) == Err(InvalidPackageName(seq(100, _ => 'a'), TooLong))
    ensures SanitizeManagerId("npm\n") == Ok("npm\n")
  {
    assert "npm;rm"[3] == ';';
    var long := seq(100, _ => 'a');
    assert ManagerIdBody(long);
    assert "npm\n"[..3] == "npm";
  }

  /** The comprehension `[sanitize_package_name(a) for a in args]`: stops at
      the first invalid argument. */
  function SanitizeAll(args: seq<string>): (r: Result<seq<string>>)
    ensures r.Ok? <==> forall i :: 0 <= i < |args| ==> SanitizePackageName(args[i]).Ok?
    ensures r.Ok? ==> r.value == args
    ensures r.Err? ==> exists k :: FirstInvalid(args, k) && r.error == SanitizePackageName(args[k]).error
  {
    if args == [] then Ok([])
    else
      match SanitizePackageName(args[0])
      case Err(e) =>
        assert FirstInvalid(args, 0);
        Err(e)
      case Ok(a) =>
        match SanitizeAll(args[1..])
        case Err(e) =>
          var k :| FirstInvalid(args[1..], k) && e == SanitizePackageName(args[1..][k]).error;
          assert FirstInvalid(args, k + 1);
          Err(e)
        case Ok(rest) =>
          assert args == [a] + rest;
          Ok([a] + rest)
  }

  /** `args[k]` is the first argument the validation layer rejects. */
  predicate FirstInvalid(args: seq<string>, k: int) {
    && 0 <= k < |args|
    && SanitizePackageName(args[k]).Err?
    && forall j :: 0 <= j < k ==> SanitizePackageName(args[j]).Ok?
  }

  /** `build_safe_command(base_cmd, args)`: `base_cmd + args` when every
      argument is a valid package name, otherwise the error for the first
      invalid one. */
  function BuildSafeCommand(baseCmd: seq<string>, args: seq<string>): (r: Result<seq<string>>)
    ensures r.Ok? <==> forall i :: 0 <= i < |args| ==> ValidPackageName(args[i])
    ensures r.Ok? ==> r.value == baseCmd + args
    ensures r.Err? ==> exists k :: FirstInvalid(args, k) && r.error == InvalidPackageName(args[k], SanitizePackageName(args[k]).error.problem)
  {
    var sanitized :- SanitizeAll(args);
    Ok(baseCmd + sanitized)
  }

  lemma BuildSafeCommandExamples()
    ensures BuildSafeCommand(["npm", "uninstall"], ["react"]) == Ok(["npm", "uninstall", "react"])
    ensures BuildSafeCommand(["npm", "install"], ["react", "vue", "angular"])
         == Ok(["npm", "install", "react", "vue", "angular"])
    ensures BuildSafeCommand(["npm", "install"], ["react", "lodash; rm -rf /"]).Err?
  {
    PlainNameAccepted("react");
    PlainNameAccepted("vue");
    PlainNameAccepted("angular");
    assert !ValidPackageName("lodash; rm -rf /") by { assert "lodash; rm -rf /"[6] == ';'; }
    assert ["react", "lodash; rm -rf /"][1] == "lodash; rm -rf /";
    assert ["npm", "uninstall"] + ["react"] == ["npm", "uninstall", "react"];
    assert ["npm", "install"] + ["react", "vue", "angular"] == ["npm", "install", "react", "vue", "angular"];
    assert forall i :: 0 <= i < |["react", "vue", "angular"]| ==> ValidPackageName(["react", "vue", "angular"][i]);
  }

  /** `validate_path(path)` against the base directory `base`: a relative
      path is taken below `base`, the result is resolved, and it must be
      `base` or lie below it. */
  function ValidatePath(base: Path, path: string): (r: Result<Path>)
    requires base.absolute && Canonical(base)
    ensures r.Ok? ==> r.value.absolute && Normal(r.value.segments) && Within(r.value, base)
    ensures r.Err? ==> r.error == PathTraversal(path)
  {
    var given := Parse(path);
    var full := if given.absolute then given else Join(base, given);
    var resolved := Resolved(full);
    if Within(resolved, base) then Ok(resolved) else Err(PathTraversal(path))
  }

  /** A relative path made of plain names resolves to `base/path`. */
  lemma ValidatePathRelative(base: Path, path: string)
    requires base.absolute && Normal(base.segments)
    requires !Parse(path).absolute && Normal(Parse(path).segments)
    ensures ValidatePath(base, path) == Ok(Path(true, base.segments + Parse(path).segments))
  {
    var segs := base.segments + Parse(path).segments;
    assert Normal(segs) by {
      forall i | 0 <= i < |segs| ensures IsName(segs[i]) {
        if i >= |base.segments| { assert segs[i] == Parse(path).segments[i - |base.segments|]; }
      }
    }
    ResolveNormal([], segs);
    var full := Join(base, Parse(path));
    assert full == Path(true, segs);
    assert Resolved(full) == Path(true, segs);
    assert Within(Path(true, segs), base);
  }

  /** An absolute path of plain names is accepted, unchanged, exactly when
      it is the base or below it. */
  lemma ValidatePathAbsolute(base: Path, path: string)
    requires base.absolute && Canonical(base)
    requires Parse(path).absolute && Normal(Parse(path).segments)
    ensures ValidatePath(base, path).Ok? <==> base.segments <= Parse(path).segments
    ensures ValidatePath(base, path).Ok? ==> ValidatePath(base, path).value == Parse(path)
  {
    ResolveNormal([], Parse(path).segments);
  }

  lemma ParseTraversalExample()
    ensures Parse("../../etc/passwd") == Path(false, ["..", "..", "etc", "passwd"])
  {
    var p := Path(false, ["..", "..", "etc", "passwd"]);
    assert ToString(p) == "../../etc/passwd";
    ParseToString(p);
  }

  /** `../../etc/passwd` escapes the base directory `~/.package-audit`. */
  lemma ValidatePathRejectsTraversal(home: Path)
    requires home.absolute && Normal(home.segments)
    ensures ValidatePath(AllowedBaseDir(home), "../../etc/passwd") == Err(PathTraversal("../../etc/passwd"))
  {
    var base := AllowedBaseDir(home);
    assert Normal(base.segments) by {
      BaseDirNameIsName();
      assert base.segments == home.segments + [BaseDirName];
    }
    ParseTraversalExample();
    RelativeEscape(base, "../../etc/passwd", ["..", "..", "etc", "passwd"]);
  }

  lemma BaseDirNameIsName()
    ensures IsName(BaseDirName)
  {
    assert BaseDirName == ".package-audit";
    assert forall i :: 0 <= i < |BaseDirName| ==> BaseDirName[i] != '/';
  }

  lemma RelativeEscape(base: Path, path: string, rel: seq<string>)
    requires base.absolute && Normal(base.segments) && |base.segments| > 0
    requires base.segments[|base.segments| - 1] == BaseDirName
    requires Parse(path) == Path(false, rel) && rel == ["..", "..", "etc", "passwd"]
    ensures ValidatePath(base, path) == Err(PathTraversal(path))
  {
    var full := Join(base, Parse(path));
    assert full == Path(true, base.segments + rel);
    EscapesByTwo(base.segments, rel);
  }

  /** Going up two levels and down into `etc/passwd` cannot stay below a base
      whose last segment is not `passwd`. */
  lemma EscapesByTwo(base: seq<string>, rel: seq<string>)
    requires Normal(base) && |base| > 0 && base[|base| - 1] == BaseDirName
    requires rel == ["..", "..", "etc", "passwd"]
    ensures !(base <= Resolve([], base + rel))
  {
    var stem := Step(Step(base, ".."), "..");
    ResolveUpTwo(base, rel);
    var up := stem + ["etc", "passwd"];
    assert BaseDirName[0] == '.';
    if |base| >= 2 {
      assert |up| == |base|;
      assert up[|up| - 1] == "passwd";
    } else {
      assert up[0] == "etc";
    }
  }

  /** Resolving `../../etc/passwd` below resolved segments drops the last
      two of them and appends `etc` and `passwd`. */
  lemma ResolveUpTwo(base: seq<string>, rel: seq<string>)
    requires Normal(base) && rel == ["..", "..", "etc", "passwd"]
    ensures Resolve([], base + rel) == Step(Step(base, ".."), "..") + ["etc", "passwd"]
  {
    var s1 := Step(base, "..");
    var stem := Step(s1, "..");
    var tail := ["etc", "passwd"];
    assert Normal(s1) && Normal(stem) by {
      assert forall i :: 0 <= i < |s1| ==> s1[i] == base[i];
      assert forall i :: 0 <= i < |stem| ==> stem[i] == s1[i];
    }
    assert Normal(tail) by {
      assert forall i :: 0 <= i < |tail[0]| ==> tail[0][i] != '/';
      assert forall i :: 0 <= i < |tail[1]| ==> tail[1][i] != '/';
    }
    assert Resolve([], base + rel) == Resolve(base, rel) by {
      ResolveSplit([], base, rel);
      ResolveNormal([], base);
      assert [] + base == base;
    }
    assert rel[1..] == [".."] + tail && rel[1..][1..] == tail;
    assert Resolve(base, rel) == Resolve(s1, rel[1..]);
    assert Resolve(s1, rel[1..]) == Resolve(stem, tail);
    ResolveNormal(stem, tail);
  }
}
