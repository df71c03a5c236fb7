/** POSIX paths as Python's `pathlib` sees them: an absolute flag and a list
    of segments. `Path(s)` parsing, the `/` operator, `str(path)`, lexical
    `resolve()` (symbolic links are not modelled) and `relative_to`. */
module Paths {
  import opened Text

  datatype Path = Path(absolute: bool, segments: seq<string>)

  /** A segment as `pathlib` keeps it after parsing: non-empty, without a
      slash, and not the current-directory marker. */
  predicate IsSegment(seg: string) {
    seg != "" && seg != "." && '/' !in seg
  }

  /** A segment that names an entry of a directory: also not `..`. */
  predicate IsName(seg: string) {
    IsSegment(seg) && seg != ".."
  }

  predicate Canonical(p: Path) {
    forall i :: 0 <= i < |p.segments| ==> IsSegment(p.segments[i])
  }

  /** Resolved: every segment is a plain name, no `..` is left. */
  predicate Normal(segs: seq<string>) {
    forall i :: 0 <= i < |segs| ==> IsName(segs[i])
  }

  /** The slash-separated parts of `s` that `pathlib` keeps: empty parts
      (from `//` or a leading `/`) and `.` parts are dropped. */
  function Parts(s: string): (parts: seq<string>)
    ensures forall i :: 0 <= i < |parts| ==> IsSegment(parts[i])
    decreases |s|
  {
    if s == [] then []
    else
      var p := Before(s, '/');
      var rest := if |p| == |s| then [] else s[|p| + 1..];
      (if p == "" || p == "." then [] else [p]) + Parts(rest)
  }

  /** `Path(s)`. A path is absolute when it starts with `/`. */
  function Parse(s: string): (p: Path)
    ensures Canonical(p)
    ensures p.absolute <==> (|s| > 0 && s[0] == '/')
  {
    Path(|s| > 0 && s[0] == '/', Parts(s))
  }

  /** `p / q`: an absolute right operand replaces the left one. */
  function Join(p: Path, q: Path): (r: Path)
    ensures q.absolute ==> r == q
    ensures !q.absolute ==> r.absolute == p.absolute && r.segments == p.segments + q.segments
  {
    if q.absolute then q else Path(p.absolute, p.segments + q.segments)
  }

  function JoinSlash(segs: seq<string>): string {
    if segs == [] then ""
    else if |segs| == 1 then segs[0]
    else segs[0] + "/" + JoinSlash(segs[1..])
  }

  /** `str(p)`. */
  function ToString(p: Path): string {
    if p.absolute then "/" + JoinSlash(p.segments)
    else if p.segments == [] then "."
    else JoinSlash(p.segments)
  }

  lemma {:induction false} PartsOfJoinSlash(segs: seq<string>)
    requires forall i :: 0 <= i < |segs| ==> IsSegment(segs[i])
    ensures Parts(JoinSlash(segs)) == segs
  {
    if |segs| == 1 {
      PartsOfSegment(segs[0]);
    } else if |segs| > 1 {
      assert JoinSlash(segs) == segs[0] + "/" + JoinSlash(segs[1..]);
      assert segs[0] + "/" + JoinSlash(segs[1..]) == segs[0] + ("/" + JoinSlash(segs[1..]));
      PartsCons(segs[0], JoinSlash(segs[1..]));
      PartsOfJoinSlash(segs[1..]);
      assert segs == [segs[0]] + segs[1..];
    }
  }

  lemma PartsOfSegment(a: string)
    requires IsSegment(a)
    ensures Parts(a) == [a]
  {
    BeforeWithoutSep(a, '/');
    assert Parts(a) == [a] + Parts([]);
  }

  lemma PartsCons(a: string, tail: string)
    requires IsSegment(a)
    ensures Parts(a + ("/" + tail)) == [a] + Parts(tail)
  {
    var s := a + ("/" + tail);
    BeforeAppendSep(a, tail);
    assert s[|a| + 1..] == tail;
  }

  lemma {:induction false} BeforeWithoutSep(s: string, sep: char)
    requires sep !in s
    ensures Before(s, sep) == s
  {
    if s != [] {
      assert sep !in s[1..] by { assert forall c :: c in s[1..] ==> c in s; }
      BeforeWithoutSep(s[1..], sep);
      assert s == [s[0]] + s[1..];
    }
  }

  lemma {:induction false} BeforeAppendSep(a: string, b: string)
    requires '/' !in a
    ensures Before(a + ("/" + b), '/') == a
  {
    if a == [] {
      assert (a + ("/" + b))[0] == '/';
    } else {
      assert (a + ("/" + b))[1..] == a[1..] + ("/" + b);
      assert '/' !in a[1..] by { assert forall c :: c in a[1..] ==> c in a; }
      BeforeAppendSep(a[1..], b);
      assert a == [a[0]] + a[1..];
    }
  }

  /** `Path(str(p)) == p`: printing a parsed path and parsing it again gives
      back the same path. */
  lemma ParseToString(p: Path)
    requires Canonical(p)
    ensures Parse(ToString(p)) == p
  {
    PartsOfJoinSlash(p.segments);
    if p.absolute {
      PartsAfterRoot(JoinSlash(p.segments));
    } else if p.segments != [] {
      JoinSlashHead(p.segments);
    }
  }

  /** A leading slash adds no part. */
  lemma PartsAfterRoot(s: string)
    ensures Parts("/" + s) == Parts(s)
  {
    var t := "/" + s;
    assert Before(t, '/') == "";
    assert t[1..] == s;
  }

  /** Joined segments start with the first character of the first one. */
  lemma JoinSlashHead(segs: seq<string>)
    requires segs != [] && segs[0] != ""
    ensures |JoinSlash(segs)| > 0 && JoinSlash(segs)[0] == segs[0][0]
  {
    if |segs| > 1 {
      assert JoinSlash(segs) == segs[0] + ("/" + JoinSlash(segs[1..]));
    }
  }

  /** One step of `resolve()`: `..` drops the last segment (never above the
      root), `.` and empty segments do nothing, a name is appended. */
  function Step(stack: seq<string>, seg: string): seq<string> {
    if seg == "" || seg == "." then stack
    else if seg == ".." then (if stack == [] then [] else stack[..|stack| - 1])
    else stack + [seg]
  }

  /** Lexical `resolve()` of the segments `segs` below the resolved prefix
      `stack`. */
  function Resolve(stack: seq<string>, segs: seq<string>): (r: seq<string>)
    requires forall i :: 0 <= i < |segs| ==> '/' !in segs[i]
    requires Normal(stack)
    ensures Normal(r)
    decreases |segs|
  {
    if segs == [] then stack else Resolve(Step(stack, segs[0]), segs[1..])
  }

  /** Resolving segments that are already plain names appends them. */
  lemma {:induction false} ResolveNormal(stack: seq<string>, segs: seq<string>)
    requires Normal(stack) && Normal(segs)
    ensures Resolve(stack, segs) == stack + segs
    decreases |segs|
  {
    if segs != [] {
      ResolveNormal(stack + [segs[0]], segs[1..]);
      assert stack + [segs[0]] + segs[1..] == stack + segs;
    }
  }

  /** Resolving two pieces one after the other is resolving the whole. */
  lemma {:induction false} ResolveSplit(stack: seq<string>, a: seq<string>, b: seq<string>)
    requires Normal(stack)
    requires forall i :: 0 <= i < |a| ==> '/' !in a[i]
    requires forall i :: 0 <= i < |b| ==> '/' !in b[i]
    ensures Resolve(stack, a + b) == Resolve(Resolve(stack, a), b)
    decreases |a|
  {
    if a == [] {
      assert a + b == b;
    } else {
      assert (a + b)[1..] == a[1..] + b;
      ResolveSplit(Step(stack, a[0]), a[1..], b);
    }
  }

  /** Resolving below a resolved prefix from the root is resolving below
      that prefix. */
  lemma ResolveFromBase(b: seq<string>, rest: seq<string>)
    requires Normal(b) && forall i :: 0 <= i < |rest| ==> '/' !in rest[i]
    ensures Resolve([], b + rest) == Resolve(b, rest)
  {
    ResolveSplit([], b, rest);
    ResolveNormal([], b);
    assert [] + b == b;
  }

  /** A leading `..` below a non-empty resolved prefix drops its last
      segment. */
  lemma ResolveUp(b: seq<string>, rest: seq<string>)
    requires Normal(b) && |b| > 0 && forall i :: 0 <= i < |rest| ==> '/' !in rest[i]
    ensures Normal(b[..|b| - 1])
    ensures Resolve(b, [".."] + rest) == Resolve(b[..|b| - 1], rest)
  {
    var up := b[..|b| - 1];
    assert Normal(up) by {
      forall i | 0 <= i < |up| ensures IsName(up[i]) { assert up[i] == b[i]; }
    }
    assert Step(b, "..") == up;
    assert ([".."] + rest)[1..] == rest;
  }

  /** `resolve()` of an absolute path: an absolute path without `..`. */
  function Resolved(p: Path): (r: Path)
    requires Canonical(p)
    ensures r.absolute == p.absolute && Normal(r.segments)
  {
    Path(p.absolute, Resolve([], p.segments))
  }

  /** `p.relative_to(base)` succeeds: `base` is `p` or one of its parents. */
  predicate Within(p: Path, base: Path) {
    p.absolute == base.absolute && base.segments <= p.segments
  }
}
