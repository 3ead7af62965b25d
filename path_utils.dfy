/**
 * The path sandbox: `resolvePath` turns a user-supplied relative path into
 * an absolute path under the project root, using POSIX `normalize` and
 * `resolve`, and rejects absolute input and results that do not start with
 * the root string.
 *
 * Paths are lists of segments. Both `normalize` and `resolve` walk the
 * segments left to right over a stack: empty segments and `.` are dropped,
 * an ordinary segment is pushed, and `..` pops the last pushed segment. They
 * differ only when `..` meets an empty stack (or a stack ending in `..`):
 * `normalize` of a relative path keeps the `..`, while an absolute path
 * (and so `resolve`) drops it, since nothing is above `/`.
 */
module PathUtils {
  import opened Common

  /** A segment naming a directory entry: not empty, `.` or `..`. */
  predicate Plain(seg: string)
  {
    seg != "" && seg != "." && seg != ".." && '/' !in seg
  }

  /** The project root, an absolute normalised path, given by its segments. */
  predicate ValidRoot(root: seq<string>)
  {
    forall k :: 0 <= k < |root| ==> Plain(root[k])
  }

  /** The root as the string `PROJECT_ROOT`. */
  function RootString(root: seq<string>): string
  {
    "/" + Join(root, "/")
  }

  predicate IsAbsolute(p: string)
  {
    |p| > 0 && p[0] == '/'
  }

  /** One segment of the walk; `aboveRoot` says whether `..` may be kept. */
  function Step(stack: seq<string>, seg: string, aboveRoot: bool): seq<string>
  {
    if seg == "" || seg == "." then stack
    else if seg == ".." then
      if |stack| > 0 && stack[|stack| - 1] != ".." then stack[..|stack| - 1]
      else if aboveRoot then stack + [".."]
      else stack
    else stack + [seg]
  }

  /** The walk over a whole list of segments, starting from `stack`. */
  function Walk(stack: seq<string>, segs: seq<string>, aboveRoot: bool): seq<string>
    decreases |segs|
  {
    if segs == [] then stack
    else Step(Walk(stack, segs[..|segs| - 1], aboveRoot), segs[|segs| - 1], aboveRoot)
  }

  /** `path.posix.normalize(p)`. */
  function Normalize(p: string): string
  {
    if |p| == 0 then "."
    else
      var absolute := p[0] == '/';
      var trailing := p[|p| - 1] == '/';
      var segs := Walk([], Split(p, '/'), !absolute);
      if segs == [] then
        (if absolute then "/" else if trailing then "./" else ".")
      else
        var body := Join(segs, "/") + (if trailing then "/" else "");
        if absolute then "/" + body else body
  }

  /** `path.posix.resolve(base, p)` for an absolute `base`. */
  function Resolve(base: string, p: string): string
  {
    var full := if IsAbsolute(p) then p else base + "/" + p;
    "/" + Join(Walk([], Split(full, '/'), false), "/")
  }

  /**
   * Reference definition of where a relative user path leads: walk its raw
   * segments from the root, never above `/`.
   */
  function Resolved(root: seq<string>, p: string): seq<string>
  {
    Walk(root, Split(p, '/'), false)
  }

  const PathNotString := McpError(InvalidParams, "Path must be a string.")
  const AbsoluteNotAllowed := McpError(InvalidParams, "Absolute paths are not allowed.")
  const TraversalDetected := McpError(InvalidRequest, "Path traversal detected. Access denied.")

  /**
   * `resolvePath(userPath)`. Absolute input is refused before resolution; a
   * relative one is resolved exactly as its raw segments walked from the
   * root, and accepted iff the result starts with the root string.
   */
  function ResolvePath(root: seq<string>, userPath: Json): (r: Result<string>)
    requires ValidRoot(root)
    ensures !userPath.JStr? ==> r == Err(PathNotString)
    ensures userPath.JStr? && IsAbsolute(userPath.s) ==> r == Err(AbsoluteNotAllowed)
    ensures userPath.JStr? && !IsAbsolute(userPath.s) ==>
      var resolved := "/" + Join(Resolved(root, userPath.s), "/");
      r == if StartsWith(resolved, RootString(root)) then Ok(resolved) else Err(TraversalDetected)
    ensures r.Ok? ==> StartsWith(r.value, RootString(root))
  {
    if !userPath.JStr? then Err(PathNotString)
    else
      var normalized := Normalize(userPath.s);
      NormalizeKeepsAbsolute(userPath.s);
      if IsAbsolute(normalized) then Err(AbsoluteNotAllowed)
      else
        var resolved := Resolve(RootString(root), normalized);
        ResolveNormalized(root, userPath.s);
        if !StartsWith(resolved, RootString(root)) then Err(TraversalDetected)
        else Ok(resolved)
  }

  /**
   * The mutating handlers go on to the filesystem call: `resolvePath`
   * accepts `p` and its result is not `PROJECT_ROOT` itself.
   */
  predicate Operable(root: seq<string>, p: string)
    requires ValidRoot(root)
  {
    var r := ResolvePath(root, JStr(p));
    r.Ok? && r.value != RootString(root)
  }

  // ---------------------------------------------------------------------
  // Properties of the walk
  // ---------------------------------------------------------------------

  /** Walking a concatenation walks the parts in turn. */
  lemma {:induction false} WalkAppend(s: seq<string>, a: seq<string>, b: seq<string>, aboveRoot: bool)
    ensures Walk(s, a + b, aboveRoot) == Walk(Walk(s, a, aboveRoot), b, aboveRoot)
    decreases |b|
  {
    if b == [] {
      assert a + b == a;
    } else {
      var b' := b[..|b| - 1];
      assert (a + b)[..|a + b| - 1] == a + b';
      WalkAppend(s, a, b', aboveRoot);
    }
  }

  /** Segments that are only skipped leave the stack as it is. */
  lemma {:induction false} WalkSkips(s: seq<string>, segs: seq<string>, aboveRoot: bool)
    requires forall k :: 0 <= k < |segs| ==> segs[k] == "" || segs[k] == "."
    ensures Walk(s, segs, aboveRoot) == s
    decreases |segs|
  {
    if segs != [] {
      WalkSkips(s, segs[..|segs| - 1], aboveRoot);
    }
  }

  /** Plain segments are pushed one by one. */
  lemma {:induction false} WalkPlain(s: seq<string>, segs: seq<string>, aboveRoot: bool)
    requires forall k :: 0 <= k < |segs| ==> Plain(segs[k])
    ensures Walk(s, segs, aboveRoot) == s + segs
    decreases |segs|
  {
    if segs != [] {
      WalkPlain(s, segs[..|segs| - 1], aboveRoot);
      assert s + segs[..|segs| - 1] + [segs[|segs| - 1]] == s + segs;
    }
  }

  /** The stack only ever holds plain segments or `..`. */
  predicate Stacked(stack: seq<string>)
  {
    forall k :: 0 <= k < |stack| ==> stack[k] == ".." || Plain(stack[k])
  }

  lemma {:induction false} WalkStacked(s: seq<string>, segs: seq<string>, aboveRoot: bool)
    requires Stacked(s)
    requires forall k :: 0 <= k < |segs| ==> '/' !in segs[k]
    ensures Stacked(Walk(s, segs, aboveRoot))
    ensures !aboveRoot && ValidRoot(s) ==> ValidRoot(Walk(s, segs, aboveRoot))
    decreases |segs|
  {
    if segs != [] {
      WalkStacked(s, segs[..|segs| - 1], aboveRoot);
    }
  }

  /**
   * Normalising first changes nothing about where a walk from the root
   * leads: `resolve(root, normalize(p))` walks the same as the raw segments.
   */
  lemma {:induction false} WalkNormalized(root: seq<string>, segs: seq<string>)
    requires ValidRoot(root)
    requires forall k :: 0 <= k < |segs| ==> '/' !in segs[k]
    ensures Walk(root, Walk([], segs, true), false) == Walk(root, segs, false)
    decreases |segs|
  {
    if segs != [] {
      var init, x := segs[..|segs| - 1], segs[|segs| - 1];
      var n := Walk([], init, true);
      WalkNormalized(root, init);
      WalkStacked([], init, true);
      if x == ".." && |n| > 0 && n[|n| - 1] != ".." {
        var y := n[|n| - 1];
        assert n[..|n| - 1] + [y] == n;
        assert Walk(root, n, false) == Step(Walk(root, n[..|n| - 1], false), y, false);
        WalkStacked(root, n[..|n| - 1], false);
      } else if x != "" && x != "." {
        assert (n + [x])[..|n|] == n;
      }
    }
  }

  /** `normalize` keeps a path absolute exactly when it was. */
  lemma NormalizeKeepsAbsolute(p: string)
    ensures IsAbsolute(Normalize(p)) <==> IsAbsolute(p)
  {
    if |p| > 0 && p[0] != '/' {
      var segs := Walk([], Split(p, '/'), true);
      if segs != [] {
        WalkStacked([], Split(p, '/'), true);
        assert segs[0] != "";
        JoinHead(segs);
      }
    }
  }

  /** A join of non-empty segments starts with the first segment. */
  lemma JoinHead(segs: seq<string>)
    requires |segs| > 0
    ensures StartsWith(Join(segs, "/"), segs[0])
  {
  }

  /** The shape of `normalize(p)` for a relative, non-empty `p`. */
  lemma NormalizeRelative(p: string)
    requires |p| > 0 && p[0] != '/'
    ensures var segs := Walk([], Split(p, '/'), true);
            var trailing := p[|p| - 1] == '/';
            Normalize(p) == if segs == [] then (if trailing then "./" else ".")
                            else Join(segs, "/") + (if trailing then "/" else "")
  {
  }

  /** A trailing `/` adds an empty last segment, which the walk skips. */
  lemma TrailingSlashSkipped(root: seq<string>, j: string)
    ensures Walk(root, Split(j + "/", '/'), false) == Walk(root, Split(j, '/'), false)
  {
    assert j + "/" == j + ['/'] + "";
    SplitAround(j, '/', "");
    SplitNoSeparator("", '/');
    WalkAppend(root, Split(j, '/'), [""], false);
    WalkSkips(Walk(root, Split(j, '/'), false), [""], false);
  }

  /** The string segments of `normalize(p)` walk like its segment list. */
  lemma SplitNormalized(root: seq<string>, p: string)
    requires ValidRoot(root)
    requires !IsAbsolute(p)
    ensures Walk(root, Split(Normalize(p), '/'), false) == Walk(root, Walk([], Split(p, '/'), true), false)
  {
    if |p| == 0 {
      SplitNoSeparator(".", '/');
      WalkSkips(root, ["."], false);
      WalkSkips(root, [], true);
    } else {
      var segs := Walk([], Split(p, '/'), true);
      var trailing := p[|p| - 1] == '/';
      NormalizeRelative(p);
      var j := if segs == [] then "." else Join(segs, "/");
      if trailing {
        assert Normalize(p) == j + "/";
        TrailingSlashSkipped(root, j);
      } else {
        assert Normalize(p) == j;
      }
      if segs == [] {
        SplitNoSeparator(".", '/');
        WalkSkips(root, ["."], false);
        WalkSkips(root, [], false);
      } else {
        WalkStacked([], Split(p, '/'), true);
        SplitJoin(segs, '/');
      }
    }
  }

  /** The root string splits into an empty head and the root's segments. */
  lemma SplitRoot(root: seq<string>)
    requires ValidRoot(root)
    ensures Walk([], Split(RootString(root), '/'), false) == root
  {
    SplitAround("", '/', Join(root, "/"));
    assert RootString(root) == "" + ['/'] + Join(root, "/");
    if root == [] {
      WalkSkips([], Split(RootString(root), '/'), false);
    } else {
      SplitJoin(root, '/');
      WalkAppend([], [""], root, false);
      WalkPlain([], root, false);
    }
  }

  /** `resolve(root, normalize(p))` ends where the raw segments of `p` lead. */
  lemma ResolveNormalized(root: seq<string>, p: string)
    requires ValidRoot(root)
    requires !IsAbsolute(p)
    ensures Resolve(RootString(root), Normalize(p)) == "/" + Join(Resolved(root, p), "/")
  {
    var n := Normalize(p);
    NormalizeKeepsAbsolute(p);
    SplitAround(RootString(root), '/', n);
    assert RootString(root) + "/" + n == RootString(root) + ['/'] + n;
    WalkAppend([], Split(RootString(root), '/'), Split(n, '/'), false);
    SplitRoot(root);
    SplitNormalized(root, p);
    WalkNormalized(root, Split(p, '/'));
  }

  // ---------------------------------------------------------------------
  // What `resolvePath` accepts
  // ---------------------------------------------------------------------

  /** `.` and the empty path resolve to the root itself and are accepted. */
  lemma DotIsRoot(root: seq<string>)
    requires ValidRoot(root)
    ensures ResolvePath(root, JStr(".")) == Ok(RootString(root))
    ensures ResolvePath(root, JStr("")) == Ok(RootString(root))
  {
    SplitNoSeparator(".", '/');
    SplitNoSeparator("", '/');
    WalkSkips(root, ["."], false);
    WalkSkips(root, [""], false);
  }

  lemma {:induction false} JoinAppend(a: seq<string>, b: seq<string>)
    requires |a| > 0 && |b| > 0
    ensures Join(a + b, "/") == Join(a, "/") + "/" + Join(b, "/")
    decreases |a|
  {
    if |a| > 1 {
      JoinAppend(a[1..], b);
      assert (a + b)[1..] == a[1..] + b;
    } else {
      assert (a + b)[1..] == b;
    }
  }

  /**
   * A path of ordinary segments is always accepted and lands at the root
   * followed by those segments.
   */
  lemma PlainPathAccepted(root: seq<string>, segs: seq<string>)
    requires ValidRoot(root) && |root| > 0
    requires |segs| > 0 && forall k :: 0 <= k < |segs| ==> Plain(segs[k])
    ensures ResolvePath(root, JStr(Join(segs, "/"))) == Ok(RootString(root) + "/" + Join(segs, "/"))
  {
    var p := Join(segs, "/");
    var resolved := "/" + Join(Resolved(root, p), "/");
    assert resolved == RootString(root) + "/" + p && !IsAbsolute(p) by {
      PlainResolved(root, segs);
      Associate("/", Join(root, "/"), "/", p);
    }
    PrefixOfConcat(RootString(root), "/", p);
    Accepted(root, p);
  }

  lemma PlainResolved(root: seq<string>, segs: seq<string>)
    requires ValidRoot(root) && |root| > 0
    requires |segs| > 0 && forall k :: 0 <= k < |segs| ==> Plain(segs[k])
    ensures !IsAbsolute(Join(segs, "/"))
    ensures Join(Resolved(root, Join(segs, "/")), "/") == Join(root, "/") + "/" + Join(segs, "/")
  {
    var p := Join(segs, "/");
    SplitJoin(segs, '/');
    JoinHead(segs);
    assert segs[0][0] == p[0];
    WalkPlain(root, segs, false);
    JoinAppend(root, segs);
  }

  lemma PrefixOfConcat(a: string, b: string, c: string)
    ensures StartsWith(a + b + c, a)
  {
    assert (a + b + c)[..|a|] == a;
  }

  lemma Associate(a: string, b: string, c: string, d: string)
    ensures a + (b + c + d) == (a + b) + c + d
  {
  }

  /** A relative path whose walk stays under the root string is returned resolved. */
  lemma Accepted(root: seq<string>, p: string)
    requires ValidRoot(root) && !IsAbsolute(p)
    requires StartsWith("/" + Join(Resolved(root, p), "/"), RootString(root))
    ensures ResolvePath(root, JStr(p)) == Ok("/" + Join(Resolved(root, p), "/"))
  {
  }

  /**
   * The check is a string-prefix test: with root `/w/proj`, the input
   * `../proj2/x` reaches the sibling directory `/w/proj2` and is accepted.
   */
  lemma SiblingPrefixAccepted(root: seq<string>, p: string)
    requires root == ["w", "proj"] && p == "../proj2/x"
    ensures ResolvePath(root, JStr(p)) == Ok("/w/proj2/x")
    ensures !Descendant(Resolved(root, p), root)
  {
    var t := Resolved(root, p);
    assert t == ["w", "proj2", "x"] by {
      SiblingWalk(root, p);
    }
    assert "/" + Join(t, "/") == "/w/proj2/x" by {
      JoinSmall("w", "proj2", "x");
    }
    assert StartsWith("/w/proj2/x", RootString(root)) by {
      assert Join(root, "/") == "w" + "/" + Join(["proj"], "/") == "w/proj";
    }
    Accepted(root, p);
    assert t[..2][1] == "proj2" != "proj";
  }

  lemma JoinSmall(a: string, b: string, c: string)
    ensures Join([a, b, c], "/") == a + "/" + b + "/" + c
  {
    assert [a, b, c][1..] == [b, c];
    assert [b, c][1..] == [c];
    assert Join([b, c], "/") == b + "/" + c;
    assert Join([a, b, c], "/") == a + "/" + (b + "/" + c);
  }

  lemma SiblingWalk(root: seq<string>, p: string)
    requires root == ["w", "proj"] && p == "../proj2/x"
    ensures Resolved(root, p) == ["w", "proj2", "x"]
  {
    SiblingSegments(p);
    var segs := Split(p, '/');
    assert segs[..2] == ["..", "proj2"] && segs[..2][..1] == [".."] && segs[..2][..1][..0] == [];
    assert Walk(root, segs[..2][..1], false) == ["w"];
    assert Walk(root, segs[..2], false) == ["w", "proj2"];
  }

  lemma SiblingSegments(p: string)
    requires p == "../proj2/x"
    ensures Split(p, '/') == ["..", "proj2", "x"]
  {
    var a, b, c := "..", "proj2", "x";
    var tail := b + ['/'] + c;
    assert Split(tail, '/') == [b, c] by {
      SplitAround(b, '/', c);
      SplitNoSeparator(b, '/');
      SplitNoSeparator(c, '/');
    }
    assert Split(p, '/') == [a] + Split(tail, '/') by {
      assert p == a + ['/'] + tail;
      SplitAround(a, '/', tail);
      SplitNoSeparator(a, '/');
    }
  }

  // ---------------------------------------------------------------------
  // A containment check that means "inside the root"
  // ---------------------------------------------------------------------

  /** `resolved` is the root or lies below it, compared at a separator. */
  predicate Inside(resolved: string, rootStr: string)
  {
    resolved == rootStr || StartsWith(resolved, if rootStr == "/" then "/" else rootStr + "/")
  }

  /** `t` lies at or below `root`. */
  predicate Descendant(t: seq<string>, root: seq<string>)
  {
    |root| <= |t| && t[..|root|] == root
  }

  /** `resolvePath` with the containment test done at a separator boundary. */
  function ResolvePathContained(root: seq<string>, userPath: Json): (r: Result<string>)
    requires ValidRoot(root)
    ensures r.Ok? <==> userPath.JStr? && !IsAbsolute(userPath.s) && Descendant(Resolved(root, userPath.s), root)
    ensures r.Ok? ==> r.value == "/" + Join(Resolved(root, userPath.s), "/")
  {
    if !userPath.JStr? then Err(PathNotString)
    else
      var normalized := Normalize(userPath.s);
      NormalizeKeepsAbsolute(userPath.s);
      if IsAbsolute(normalized) then Err(AbsoluteNotAllowed)
      else
        var resolved := Resolve(RootString(root), normalized);
        ResolveNormalized(root, userPath.s);
        WalkStacked(root, Split(userPath.s, '/'), false);
        InsideIsDescendant(root, Resolved(root, userPath.s));
        if !Inside(resolved, RootString(root)) then Err(TraversalDetected)
        else Ok(resolved)
  }

  /** The separator-aware test holds exactly for descendants of the root. */
  lemma InsideIsDescendant(root: seq<string>, t: seq<string>)
    requires ValidRoot(root) && ValidRoot(t)
    ensures Inside("/" + Join(t, "/"), RootString(root)) <==> Descendant(t, root)
  {
    if Descendant(t, root) {
      DescendantInside(root, t);
    }
    if Inside("/" + Join(t, "/"), RootString(root)) {
      InsideDescendant(root, t);
    }
  }

  lemma DescendantInside(root: seq<string>, t: seq<string>)
    requires ValidRoot(root) && ValidRoot(t)
    requires Descendant(t, root)
    ensures Inside("/" + Join(t, "/"), RootString(root))
  {
    if |t| == |root| {
      assert t == root;
    } else if |root| == 0 {
      assert RootString(root) == "/";
    } else {
      assert root + t[|root|..] == t;
      JoinAppend(root, t[|root|..]);
      assert "/" + Join(t, "/") == (RootString(root) + "/") + Join(t[|root|..], "/");
    }
  }

  lemma InsideDescendant(root: seq<string>, t: seq<string>)
    requires ValidRoot(root) && ValidRoot(t)
    requires Inside("/" + Join(t, "/"), RootString(root))
    ensures Descendant(t, root)
  {
    var js, jr := Join(t, "/"), Join(root, "/");
    if root != [] {
      JoinHead(root);
      JoinNonEmpty(t);
      if "/" + js == "/" + jr {
        assert js == jr by {
          assert ("/" + js)[1..] == js && ("/" + jr)[1..] == jr;
        }
        SplitJoin(root, '/');
        SplitJoin(t, '/');
      } else {
        SlashPrefix(js, jr);
        ExtendedJoin(root, t, js[|jr| + 1..]);
      }
    }
  }

  /** A string that `/jr/` starts once `/` is put before it continues `jr` after a separator. */
  lemma SlashPrefix(js: string, jr: string)
    requires StartsWith("/" + js, "/" + jr + "/")
    ensures |js| >= |jr| + 1 && js == jr + ['/'] + js[|jr| + 1..]
  {
    assert js[..|jr| + 1] == ("/" + js)[1..|jr| + 2] == ("/" + jr + "/")[1..] == jr + "/";
  }

  /** Segments whose join continues the root's join after a separator start with the root's segments. */
  lemma ExtendedJoin(root: seq<string>, t: seq<string>, rest: string)
    requires ValidRoot(root) && ValidRoot(t) && root != [] && t != []
    requires Join(t, "/") == Join(root, "/") + ['/'] + rest
    ensures Descendant(t, root)
  {
    SplitJoin(root, '/');
    SplitJoin(t, '/');
    SplitAround(Join(root, "/"), '/', rest);
    assert t == root + Split(rest, '/');
    assert t[..|root|] == root;
  }

  /** A join of at least one segment is empty only if the segments are. */
  lemma JoinNonEmpty(t: seq<string>)
    requires ValidRoot(t)
    ensures |Join(t, "/")| > 0 <==> t != []
  {
    if t != [] {
      JoinHead(t);
    }
  }
}
