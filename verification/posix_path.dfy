/** Node's POSIX `path.extname` and `path.join` as the servers call them.
    Absolute paths are handled through their segment lists: a path such
    as `/srv/app` is the sequence ["srv", "app"], and `/` is the empty
    sequence. */
module PosixPath {
  import opened Wrappers
  import opened Text

  /** A segment that survives normalisation: non-empty, not `.` or `..`,
      and free of `/`. */
  predicate NormalSegment(s: string) {
    s != "" && s != "." && s != ".." && '/' !in s
  }

  predicate Canonical(segs: seq<string>) {
    forall i :: 0 <= i < |segs| ==> NormalSegment(segs[i])
  }

  /** A directory given by its canonical segments; the servers' own
      directory (`__dirname`) is one. */
  type Directory = segs: seq<string> | Canonical(segs) witness []

  // ---------------------------------------------------------------------
  // path.extname

  /** The path with every trailing `/` removed. */
  function TrimTrailingSlashes(p: string): (t: string)
    ensures StartsWith(p, t)
    ensures t == "" || t[|t| - 1] != '/'
    ensures forall i :: |t| <= i < |p| ==> p[i] == '/'
    decreases |p|
  {
    if p != [] && p[|p| - 1] == '/' then TrimTrailingSlashes(p[..|p| - 1]) else p
  }

  /** The part of `s` after its last `/`. */
  function LastSegment(s: string): (b: string)
    ensures '/' !in b
    ensures EndsWith(s, b)
    ensures |b| < |s| ==> s[|s| - |b| - 1] == '/'
    decreases |s|
  {
    if s == [] || s[|s| - 1] == '/' then [] else LastSegment(s[..|s| - 1]) + [s[|s| - 1]]
  }

  /** The last segment of a path, trailing separators ignored: it ends
      the trimmed path, holds no `/`, and is preceded by a `/` unless it
      is the whole trimmed path. */
  function BaseName(p: string): (b: string)
    ensures '/' !in b
    ensures EndsWith(TrimTrailingSlashes(p), b)
    ensures var t := TrimTrailingSlashes(p); |b| < |t| ==> t[|t| - |b| - 1] == '/'
  {
    LastSegment(TrimTrailingSlashes(p))
  }

  /** The index of the last `.` in `s`. */
  function LastDot(s: string): (r: Option<nat>)
    ensures r.Some? ==> r.value < |s| && s[r.value] == '.'
    ensures r.Some? ==> forall j :: r.value < j < |s| ==> s[j] != '.'
    ensures r.None? ==> '.' !in s
    decreases |s|
  {
    if s == [] then None
    else if s[|s| - 1] == '.' then Some(|s| - 1)
    else LastDot(s[..|s| - 1])
  }

  /** The base name carries an extension: it has a `.` after its first
      character and is not `..`. */
  predicate HasExtension(b: string) {
    b != ".." && exists i :: 0 < i < |b| && b[i] == '.'
  }

  /** Node's `path.extname`: the base name's suffix from its last `.`, or
      `""` when the base name has no extension. */
  function ExtName(p: string): (ext: string)
    ensures ext != "" <==> HasExtension(BaseName(p))
    ensures ext != "" ==> ext[0] == '.'
    ensures forall j :: 0 < j < |ext| ==> ext[j] != '.'
    ensures EndsWith(BaseName(p), ext)
  {
    var b := BaseName(p);
    var dot := LastDot(b);
    LastDotDecidesExtension(b);
    if dot.None? || dot.value == 0 || b == ".." then
      assert !HasExtension(b);
      ""
    else
      assert HasExtension(b) && dot.value < |b|;
      SuffixFromLastDot(b, dot.value);
      assert b[dot.value..] != "";
      b[dot.value..]
  }

  /** The suffix from the last dot starts with that dot and has no other. */
  lemma SuffixFromLastDot(b: string, i: nat)
    requires LastDot(b) == Some(i)
    ensures var ext := b[i..];
      && ext[0] == '.'
      && (forall j :: 0 < j < |ext| ==> ext[j] != '.')
      && EndsWith(b, ext)
  {
  }

  lemma LastDotDecidesExtension(b: string)
    ensures HasExtension(b) <==> LastDot(b).Some? && LastDot(b).value != 0 && b != ".."
  {
    var dot := LastDot(b);
    if HasExtension(b) {
      var i :| 0 < i < |b| && b[i] == '.';
      assert b[i] in b;
    }
  }

  /** A path with no `.` anywhere has no extension. */
  lemma ExtNameWithoutDot(p: string)
    requires '.' !in p
    ensures ExtName(p) == ""
  {
    var t := TrimTrailingSlashes(p);
    var b := BaseName(p);
    assert t == p[..|t|];
    assert b == t[|t| - |b|..];
    forall i | 0 <= i < |b|
      ensures b[i] != '.'
    {
      assert b[i] == t[|t| - |b| + i] == p[|t| - |b| + i];
    }
  }

  // ---------------------------------------------------------------------
  // path.join

  /** The segments of an absolute path after normalising `parts` on top of
      `stack`: empty parts and `.` vanish, `..` removes the last segment
      and never climbs above `/`. */
  function Walk(stack: seq<string>, parts: seq<string>): (segs: seq<string>)
    ensures Canonical(stack) && (forall i :: 0 <= i < |parts| ==> '/' !in parts[i])
            ==> Canonical(segs)
    decreases |parts|
  {
    if parts == [] then stack
    else if parts[0] == "" || parts[0] == "." then Walk(stack, parts[1..])
    else if parts[0] == ".." then Walk(if stack == [] then [] else stack[..|stack| - 1], parts[1..])
    else Walk(stack + [parts[0]], parts[1..])
  }

  /** `/a/b` for ["a", "b"]; the empty string for no segments. */
  function RenderSegs(segs: seq<string>): string
    decreases |segs|
  {
    if segs == [] then "" else "/" + segs[0] + RenderSegs(segs[1..])
  }

  /** The absolute path with the given segments. */
  function Render(segs: seq<string>): (path: string)
    ensures |path| > 0 && path[0] == '/'
  {
    if segs == [] then "/" else RenderSegs(segs)
  }

  /** Node's `path.join(dir, p)` for an absolute `dir`: the two are joined
      with `/` (an empty `p` is dropped) and the result normalised; a
      trailing `/` of the joined string survives unless the result is `/`. */
  function Join(dir: Directory, p: string): (path: string)
    ensures |path| > 0 && path[0] == '/'
  {
    var joined := if p == "" then Render(dir) else Render(dir) + "/" + p;
    var segs := Walk([], Split(joined, '/'));
    Render(segs) + (if segs != [] && joined[|joined| - 1] == '/' then "/" else "")
  }

  /** The segments `path.join(dir, p)` ends up with. */
  function JoinSegments(dir: Directory, p: string): Directory {
    Walk(dir, Split(p, '/'))
  }

  /** A `/` that `path.join(dir, p)` keeps at the end of its result. */
  function Trailer(p: string, segs: seq<string>): string {
    if segs != [] && p != "" && p[|p| - 1] == '/' then "/" else ""
  }

  lemma {:induction false} WalkConcat(stack: seq<string>, a: seq<string>, b: seq<string>)
    ensures Walk(stack, a + b) == Walk(Walk(stack, a), b)
    decreases |a|
  {
    if a != [] {
      assert (a + b)[0] == a[0];
      assert (a + b)[1..] == a[1..] + b;
      var next := if a[0] == "" || a[0] == "." then stack
                  else if a[0] == ".." then (if stack == [] then [] else stack[..|stack| - 1])
                  else stack + [a[0]];
      WalkConcat(next, a[1..], b);
    } else {
      assert a + b == b;
    }
  }

  /** Normal segments are pushed one by one. */
  lemma {:induction false} WalkCanonical(stack: seq<string>, segs: seq<string>)
    requires Canonical(segs)
    ensures Walk(stack, segs) == stack + segs
    decreases |segs|
  {
    if segs != [] {
      WalkCanonical(stack + [segs[0]], segs[1..]);
      assert stack + [segs[0]] + segs[1..] == stack + segs;
    }
  }

  /** Splitting `a` followed by rendered segments recovers `a` and the
      segments. */
  lemma {:induction false} SplitRenderSegs(a: string, segs: seq<string>)
    requires '/' !in a
    requires Canonical(segs)
    ensures Split(a + RenderSegs(segs), '/') == [a] + segs
    decreases |segs|
  {
    if segs == [] {
      assert a + RenderSegs(segs) == a;
      SplitWithoutSeparator(a, '/');
    } else {
      var tail := segs[0] + RenderSegs(segs[1..]);
      assert a + RenderSegs(segs) == a + ['/'] + tail;
      SplitConcat(a, tail, '/');
      SplitWithoutSeparator(a, '/');
      SplitRenderSegs(segs[0], segs[1..]);
      assert [segs[0]] + segs[1..] == segs;
    }
  }

  /** The last character of a non-empty rendering is a segment's. */
  lemma {:induction false} RenderSegsLastChar(segs: seq<string>)
    requires Canonical(segs) && segs != []
    ensures |RenderSegs(segs)| > 0 && RenderSegs(segs)[|RenderSegs(segs)| - 1] != '/'
    decreases |segs|
  {
    if |segs| > 1 {
      RenderSegsLastChar(segs[1..]);
      var r := RenderSegs(segs);
      var rest := RenderSegs(segs[1..]);
      assert r == "/" + segs[0] + rest;
      assert r[|r| - 1] == rest[|rest| - 1];
    } else {
      assert RenderSegs(segs) == "/" + segs[0] + "";
      assert segs[0][|segs[0]| - 1] in segs[0];
    }
  }

  lemma {:induction false} RenderSegsAppend(a: seq<string>, b: seq<string>)
    ensures RenderSegs(a + b) == RenderSegs(a) + RenderSegs(b)
    decreases |a|
  {
    if a != [] {
      RenderSegsAppend(a[1..], b);
      assert (a + b)[0] == a[0];
      assert (a + b)[1..] == a[1..] + b;
    } else {
      assert a + b == b;
    }
  }

  /** The splitting of the directory's own path gives its segments back. */
  lemma WalkRenderedDirectory(dir: Directory)
    ensures Walk([], Split(Render(dir), '/')) == dir
  {
    if dir == [] {
      assert Render(dir) == "/";
      assert Split("", '/') == [""];
      assert "/"[0] == '/' && "/"[1..] == "";
      assert Split("/", '/') == [""] + Split("", '/');
    } else {
      SplitRenderSegs("", dir);
      assert "" + RenderSegs(dir) == Render(dir);
      WalkCanonical([], dir);
      assert [] + dir == dir;
    }
  }

  /** `path.join(dir, p)` is the rendering of `p`'s parts walked on top of
      `dir`, with the trailing `/` of `p` kept. */
  lemma JoinWalksFromDirectory(dir: Directory, p: string)
    ensures Join(dir, p) == Render(JoinSegments(dir, p)) + Trailer(p, JoinSegments(dir, p))
  {
    var segs := JoinSegments(dir, p);
    WalkRenderedDirectory(dir);
    if p == "" {
      assert Split(p, '/') == [""];
      assert [""][1..] == [];
      assert segs == Walk(dir, []) == dir;
      if dir != [] {
        RenderSegsLastChar(dir);
      }
    } else {
      var joined := Render(dir) + "/" + p;
      assert joined == Render(dir) + ['/'] + p;
      SplitConcat(Render(dir), p, '/');
      WalkConcat([], Split(Render(dir), '/'), Split(p, '/'));
      assert joined[|joined| - 1] == p[|p| - 1];
    }
  }

  /** A path that climbs one level and then names normal segments lands
      beside the directory: `path.join("/srv/app", "/../x/y")` is
      `/srv/x/y`. */
  lemma JoinParentThen(dir: Directory, segs: seq<string>)
    requires dir != [] && segs != [] && Canonical(segs)
    ensures Join(dir, "/.." + RenderSegs(segs)) == Render(dir[..|dir| - 1] + segs)
  {
    var p := "/.." + RenderSegs(segs);
    JoinWalksFromDirectory(dir, p);
    ParentPathSplits(segs);
    WalkParentThen(dir, segs);
    RenderSegsLastChar(segs);
    assert p[|p| - 1] == RenderSegs(segs)[|RenderSegs(segs)| - 1];
  }

  /** `/..` followed by rendered segments splits into an empty part, `..`
      and the segments. */
  lemma ParentPathSplits(segs: seq<string>)
    requires Canonical(segs)
    ensures Split("/.." + RenderSegs(segs), '/') == [""] + ([".."] + segs)
  {
    var p := "/.." + RenderSegs(segs);
    assert p == "" + ['/'] + (".." + RenderSegs(segs));
    SplitConcat("", ".." + RenderSegs(segs), '/');
    SplitRenderSegs("..", segs);
    assert Split("", '/') == [""];
  }

  /** Walking an empty part, `..` and normal segments from a non-root
      directory lands beside it. */
  lemma WalkParentThen(dir: Directory, segs: seq<string>)
    requires dir != [] && Canonical(segs)
    ensures Walk(dir, [""] + ([".."] + segs)) == dir[..|dir| - 1] + segs
  {
    assert ([""] + ([".."] + segs))[1..] == [".."] + segs;
    assert ([".."] + segs)[1..] == segs;
    WalkCanonical(dir[..|dir| - 1], segs);
  }

  // ---------------------------------------------------------------------
  // Confinement to a directory

  /** The string test that a path lies in `dir` or below it, respecting
      segment boundaries: `/srv/app`, `/srv/app/` and `/srv/app/x` qualify,
      `/srv/app-data` does not. */
  predicate WithinDirectory(path: string, dir: Directory) {
    dir == [] || path == Render(dir) || StartsWith(path, Render(dir) + "/")
  }

  /** `y` starts `x` and ends there at a `/` or at the end of `x`. */
  predicate PrefixAtBoundary(x: string, y: string) {
    StartsWith(x, y) && (|x| == |y| || x[|y|] == '/')
  }

  /** Empty or starting with `/`: what may follow a segment. */
  predicate AfterSegment(u: string) {
    u == "" || u[0] == '/'
  }

  /** Two `/`-free words that both start `x` and each end at a `/` or at
      the end of `x` are the same word. */
  lemma FirstSegmentUnique(x: string, r: string, s: string)
    requires '/' !in r && '/' !in s
    requires PrefixAtBoundary(x, r) && PrefixAtBoundary(x, s)
    ensures r == s
  {
  }

  /** Rendered segments, with an optional trailing `/`, split into the
      first segment and what follows it. */
  lemma RenderHead(segs: seq<string>, t: string)
    requires Canonical(segs) && segs != []
    requires t == "" || t == "/"
    ensures RenderSegs(segs) + t == "/" + segs[0] + (RenderSegs(segs[1..]) + t)
    ensures AfterSegment(RenderSegs(segs[1..]) + t)
  {
    if segs[1..] != [] {
      assert RenderSegs(segs[1..]) == "/" + segs[1..][0] + RenderSegs(segs[1..][1..]);
    }
  }

  /** Peeling one leading segment off both sides of a boundary prefix. */
  lemma PeelSegment(r: string, s: string, u: string, v: string)
    requires '/' !in r && '/' !in s
    requires AfterSegment(u) && AfterSegment(v)
    requires PrefixAtBoundary("/" + s + u, "/" + r + v)
    ensures r == s
    ensures PrefixAtBoundary(u, v)
  {
    var x := "/" + s + u;
    var y := "/" + r + v;
    var x' := s + u;
    assert x' == x[1..];
    assert x[..|y|] == y;
    assert x'[..|r|] == r by {
      assert x'[..|r|] == x[1..1 + |r|];
      assert y[1..1 + |r|] == r;
    }
    assert |x'| == |r| || x'[|r|] == '/' by {
      if |x'| > |r| {
        if v == "" {
          assert |y| == 1 + |r|;
          assert x'[|r|] == x[|y|];
        } else {
          assert x'[|r|] == x[1 + |r|] == y[1 + |r|] == v[0];
        }
      }
    }
    assert |x'| == |s| || x'[|s|] == '/' by {
      if |x'| > |s| {
        assert x'[|s|] == u[0];
      }
    }
    assert x'[..|s|] == s;
    FirstSegmentUnique(x', r, s);
    assert u == x[1 + |r|..];
    assert v == y[1 + |r|..];
    assert u[..|v|] == v by {
      assert u[..|v|] == x[1 + |r|..|y|];
      assert y[1 + |r|..] == x[..|y|][1 + |r|..];
    }
    if |u| != |v| {
      assert u[|v|] == x[|y|];
    }
  }

  /** If rendered `segs` (plus an optional trailing `/`) starts with
      rendered `prefix` at a segment boundary, `prefix` is a prefix of
      `segs`. */
  lemma {:induction false} RenderedPrefix(prefix: seq<string>, segs: seq<string>, t: string)
    requires Canonical(prefix) && Canonical(segs) && prefix != []
    requires t == "" || t == "/"
    requires PrefixAtBoundary(RenderSegs(segs) + t, RenderSegs(prefix))
    ensures prefix <= segs
    decreases |prefix|
  {
    RenderHead(prefix, "");
    assert RenderSegs(prefix) + "" == RenderSegs(prefix);
    assert RenderSegs(prefix[1..]) + "" == RenderSegs(prefix[1..]);
    assert |RenderSegs(prefix)| >= 2 by {
      assert prefix[0] != "";
    }
    assert |RenderSegs(segs) + t| >= 2 by {
      if segs == [] {
        assert false;
      }
    }
    RenderHead(segs, t);
    PeelSegment(prefix[0], segs[0], RenderSegs(segs[1..]) + t, RenderSegs(prefix[1..]));
    if prefix[1..] != [] {
      RenderedPrefix(prefix[1..], segs[1..], t);
      assert prefix == [prefix[0]] + prefix[1..];
      assert segs == [segs[0]] + segs[1..];
    }
  }

  /** A path rendered from segments that extend the directory's passes the
      segment-boundary test. */
  lemma ExtendedSegmentsWithin(dir: Directory, segs: Directory, t: string)
    requires dir <= segs
    requires t == "" || t == "/"
    ensures WithinDirectory(Render(segs) + t, dir)
  {
    if dir != [] {
      var rest := segs[|dir|..];
      assert segs == dir + rest;
      RenderSegsAppend(dir, rest);
      if rest != [] {
        assert RenderSegs(rest) == "/" + rest[0] + RenderSegs(rest[1..]);
        assert (Render(segs) + t)[..|Render(dir)| + 1] == Render(dir) + "/";
      } else {
        assert Render(segs) + t == Render(dir) + t;
      }
    }
  }

  /** A rendered path, with an optional trailing `/`, that passes the
      segment-boundary test extends the directory's segments. */
  lemma WithinExtendsSegments(dir: Directory, segs: Directory, t: string)
    requires t == "" || (t == "/" && segs != [])
    requires WithinDirectory(Render(segs) + t, dir)
    ensures dir <= segs
  {
    if dir != [] {
      var rd := RenderSegs(dir);
      assert Render(dir) == rd;
      assert |rd| >= 2 by {
        assert rd == "/" + dir[0] + RenderSegs(dir[1..]);
        assert dir[0] != "";
      }
      assert segs != [] by {
        if segs == [] {
          assert false;
        }
      }
      var x := RenderSegs(segs) + t;
      assert x == Render(segs) + t;
      assert PrefixAtBoundary(x, rd) by {
        if x != rd {
          assert x[..|rd| + 1] == rd + "/";
          assert x[..|rd|] == (rd + "/")[..|rd|];
        }
      }
      RenderedPrefix(dir, segs, t);
    }
  }

  /** The segment-boundary test on a joined path holds exactly when the
      joined segments extend the directory's. */
  lemma WithinDirectoryIsSegmentPrefix(dir: Directory, p: string)
    ensures WithinDirectory(Join(dir, p), dir) <==> dir <= JoinSegments(dir, p)
  {
    var segs := JoinSegments(dir, p);
    var t := Trailer(p, segs);
    JoinWalksFromDirectory(dir, p);
    if dir <= segs {
      ExtendedSegmentsWithin(dir, segs, t);
    }
    if WithinDirectory(Join(dir, p), dir) {
      WithinExtendsSegments(dir, segs, t);
    }
  }

  /** Without a `..` part, joining never leaves the directory. */
  lemma {:induction false} WalkWithoutParentExtends(stack: seq<string>, parts: seq<string>)
    requires ".." !in parts
    ensures stack <= Walk(stack, parts)
    decreases |parts|
  {
    if parts != [] {
      assert parts[0] != "..";
      assert ".." !in parts[1..];
      if parts[0] == "" || parts[0] == "." {
        WalkWithoutParentExtends(stack, parts[1..]);
      } else {
        WalkWithoutParentExtends(stack + [parts[0]], parts[1..]);
      }
    }
  }

  /** A sibling whose name extends the directory's last segment, such as
      `/srv/app-data` beside `/srv/app`, starts with the directory's
      string and yet lies outside it; `/../app-data` reaches it. */
  lemma SiblingOutsideDirectory(root: Directory, suffix: string)
    requires root != [] && suffix != "" && '/' !in suffix
    ensures var name := root[|root| - 1] + suffix;
      var sibling := Render(root[..|root| - 1] + [name]);
      && NormalSegment(name)
      && StartsWith(sibling, Render(root))
      && !WithinDirectory(sibling, root)
  {
    var parent := root[..|root| - 1];
    var last := root[|root| - 1];
    var name := last + suffix;
    var sibling := Render(parent + [name]);
    ExtendedSegmentIsNormal(last, suffix);
    SiblingString(parent, last, suffix);
    assert parent + [last] == root;
  }

  /** A segment extended by a `/`-free suffix is still a segment. */
  lemma ExtendedSegmentIsNormal(last: string, suffix: string)
    requires NormalSegment(last) && suffix != "" && '/' !in suffix
    ensures NormalSegment(last + suffix)
  {
    var name := last + suffix;
    assert |name| >= 2;
    if |name| == 2 {
      assert name[..1] == last;
    }
  }

  /** `/../name` joined onto a directory names `name` in its parent. */
  lemma SiblingJoin(root: Directory, name: string)
    requires root != [] && NormalSegment(name)
    ensures Join(root, "/../" + name) == Render(root[..|root| - 1] + [name])
  {
    var segs := [name];
    assert Canonical(segs);
    assert RenderSegs(segs) == "/" + name + RenderSegs([]);
    assert "/../" + name == "/.." + RenderSegs(segs);
    JoinParentThen(root, segs);
  }

  /** The string of `parent/last+suffix` continues that of `parent/last`
      with `suffix`, not with a `/`. */
  lemma SiblingString(parent: seq<string>, last: string, suffix: string)
    requires Canonical(parent) && NormalSegment(last) && NormalSegment(last + suffix)
    requires suffix != "" && '/' !in suffix
    ensures var dir := parent + [last];
      var sibling := Render(parent + [last + suffix]);
      && Canonical(dir)
      && sibling == Render(dir) + suffix
      && StartsWith(sibling, Render(dir))
      && !WithinDirectory(sibling, dir)
  {
    var dir: Directory := parent + [last];
    RenderSegsAppend(parent, [last]);
    RenderSegsAppend(parent, [last + suffix]);
    assert RenderSegs([last]) == "/" + last;
    assert RenderSegs([last + suffix]) == "/" + (last + suffix);
    var base := RenderSegs(parent) + "/" + last;
    var sibling := Render(parent + [last + suffix]);
    assert Render(dir) == base;
    assert sibling == base + suffix;
    assert sibling[..|base|] == base;
    assert sibling[|base|] == suffix[0] != '/';
    assert (base + "/")[|base|] == '/';
    assert !StartsWith(sibling, base + "/") by {
      if StartsWith(sibling, base + "/") {
        assert false;
      }
    }
  }
}
