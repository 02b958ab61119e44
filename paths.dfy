/** The path helpers of the server (main.py): `os.path.join`, `basename`,
    `splitext`, the annotation file name shared by save and load
    (main.py:30, main.py:148), the `startswith` containment guard
    (main.py:80, main.py:99, main.py:175). Paths are POSIX strings;
    `os.path.abspath` is not modelled, so the lemmas about a joined path
    take the relative part in the normal form that abspath leaves alone. */
module Paths {
  import opened Strings

  /** `posixpath.join(a, b)`: an absolute b replaces a; otherwise b is
      appended, with a '/' in between unless a is empty or already ends
      in one. */
  function JoinPath(a: string, b: string): string
  {
    if StartsWith(b, "/") then b
    else if a == [] || EndsWith(a, "/") then a + b
    else a + "/" + b
  }

  /** `posixpath.basename(p)`: what follows the last '/', that is, the
      longest suffix of p without a '/'. */
  function Basename(p: string): (r: string)
    ensures |r| <= |p| && r == p[|p| - |r|..]
    ensures '/' !in r
    ensures |r| < |p| ==> p[|p| - |r| - 1] == '/'
    decreases |p|
  {
    if p == [] || p[|p| - 1] == '/' then []
    else Basename(p[..|p| - 1]) + [p[|p| - 1]]
  }

  /** Whatever precedes a '/' does not matter to the base name. */
  lemma {:induction false} BasenameAfterSlash(a: string, b: string)
    ensures Basename(a + "/" + b) == Basename(b)
    decreases |b|
  {
    var p := a + "/" + b;
    if b == [] {
      assert p[|p| - 1] == '/';
    } else {
      assert p[..|p| - 1] == a + "/" + b[..|b| - 1];
      assert p[|p| - 1] == b[|b| - 1];
      BasenameAfterSlash(a, b[..|b| - 1]);
    }
  }

  /** The index of the last '.', or -1 when there is none (`rfind`). */
  function LastDot(n: string): (k: int)
    ensures -1 <= k < |n|
    ensures k >= 0 ==> n[k] == '.'
    ensures forall i :: k < i < |n| ==> n[i] != '.'
    decreases |n|
  {
    if n == [] then -1
    else if n[|n| - 1] == '.' then |n| - 1
    else LastDot(n[..|n| - 1])
  }

  predicate AllDots(s: string)
  {
    forall i :: 0 <= i < |s| ==> s[i] == '.'
  }

  /** `posixpath.splitext` of a name without '/': the extension starts at
      the last '.', but only when some character before that dot is not a
      dot, so leading dots (".profile") are part of the root. */
  function SplitExt(n: string): (string, string)
  {
    var d := LastDot(n);
    if d > 0 && !AllDots(n[..d]) then (n[..d], n[d..]) else (n, [])
  }

  /** The split loses nothing, and the extension is either empty or a dot
      followed by no other dot, preceded by a root that is not all dots. */
  lemma SplitExtMeaning(n: string)
    ensures SplitExt(n).0 + SplitExt(n).1 == n
    ensures var (root, ext) := SplitExt(n);
            ext == [] || (ext[0] == '.' && '.' !in ext[1..] && root != [] && !AllDots(root))
  {
    var d := LastDot(n);
    if d > 0 && !AllDots(n[..d]) {
      assert n[..d] + n[d..] == n;
    }
  }

  /** A name without '/' is its own base name. */
  lemma {:induction false} BasenameOfName(n: string)
    requires '/' !in n
    ensures Basename(n) == n
    decreases |n|
  {
    if n != [] {
      assert n[|n| - 1] in n;
      var init := n[..|n| - 1];
      assert forall c :: c in init ==> c in n;
      BasenameOfName(init);
      assert init + [n[|n| - 1]] == n;
    }
  }

  /** The last dot of `a + "." + b` is the one between them when b has
      none. */
  lemma {:induction false} LastDotBefore(a: string, b: string)
    requires '.' !in b
    ensures LastDot(a + "." + b) == |a|
    decreases |b|
  {
    var n := a + "." + b;
    if b != [] {
      assert b[|b| - 1] in b;
      var init := b[..|b| - 1];
      assert forall c :: c in init ==> c in b;
      assert n[..|n| - 1] == a + "." + init;
      LastDotBefore(a, init);
    }
  }

  /** A stem is a prefix of the name, so it has no '/' when the name has
      none. */
  lemma StemHasNoSlash(n: string)
    requires '/' !in n
    ensures '/' !in SplitExt(n).0
  {
    SplitExtMeaning(n);
  }

  /** `os.path.splitext(os.path.basename(p))[0] + '.txt'`, computed the
      same way when an annotation is saved (main.py:30) and loaded
      (main.py:148). */
  function AnnotationFileName(p: string): (r: string)
    ensures EndsWith(r, ".txt")
    ensures '/' !in r
  {
    StemHasNoSlash(Basename(p));
    SplitExt(Basename(p)).0 + ".txt"
  }

  /** Whether position i of a path starts one of its components. */
  predicate ComponentStart(rel: string, i: int)
    requires 0 <= i < |rel|
  {
    i == 0 || rel[i - 1] == '/'
  }

  /** Whether the component starting at i is "." or "..". */
  predicate DotComponent(rel: string, i: int)
    requires 0 <= i < |rel|
  {
    && rel[i] == '.'
    && (i + 1 == |rel| || rel[i + 1] == '/'
        || (rel[i + 1] == '.' && (i + 2 == |rel| || rel[i + 2] == '/')))
  }

  /** A relative path that `os.path.abspath` leaves unchanged once joined
      to an absolute directory: non-empty, no empty, "." or ".." component
      (so no leading '/' and no "//"), and no trailing '/'. */
  predicate Normalised(rel: string)
  {
    && rel != []
    && rel[|rel| - 1] != '/'
    && forall i :: 0 <= i < |rel| && ComponentStart(rel, i) ==> rel[i] != '/' && !DotComponent(rel, i)
  }

  /** The relative path of the guard finding climbs out with "..", and a
      trailing '/' is dropped by abspath: neither is in normal form. */
  lemma NotNormalised()
    ensures !Normalised("../img-private/a.jpg")
    ensures !Normalised("a.jpg/")
  {
    assert ComponentStart("../img-private/a.jpg", 0) && DotComponent("../img-private/a.jpg", 0);
  }

  /** Save names the file after the resolved image path, the source
      directory joined with the relative path; load names it after the
      relative path alone. For a relative path in normal form, which the
      resolution leaves as joined, both give the same name. */
  lemma SaveAndLoadAgree(src: string, rel: string)
    requires Normalised(rel)
    ensures AnnotationFileName(JoinPath(src, rel)) == AnnotationFileName(rel)
  {
    BasenameOfJoin(src, rel);
  }

  /** Joining keeps the base name of the joined part. */
  lemma BasenameOfJoin(src: string, rel: string)
    ensures Basename(JoinPath(src, rel)) == Basename(rel)
  {
    if StartsWith(rel, "/") || src == [] {
      assert JoinPath(src, rel) == rel;
    } else if EndsWith(src, "/") {
      var a := src[..|src| - 1];
      assert src == a + "/";
      assert JoinPath(src, rel) == a + "/" + rel;
      BasenameAfterSlash(a, rel);
    } else {
      assert JoinPath(src, rel) == src + "/" + rel;
      BasenameAfterSlash(src, rel);
    }
  }

  /** The directory is dropped: the same file name in two directories maps
      to one annotation file. */
  lemma SubdirectoriesCollide(d1: string, d2: string, name: string)
    ensures AnnotationFileName(d1 + "/" + name) == AnnotationFileName(d2 + "/" + name)
  {
    BasenameAfterSlash(d1, name);
    BasenameAfterSlash(d2, name);
  }

  /** Only the last extension is replaced, so two images that differ only
      in their extension share an annotation file; a name of the form
      stem.ext with a stem that is not all dots keeps the stem. */
  lemma StemOfSimpleName(dir: string, stem: string, ext: string)
    requires '/' !in stem && '/' !in ext && '.' !in ext
    requires stem != [] && !AllDots(stem)
    ensures AnnotationFileName(dir + "/" + stem + "." + ext) == stem + ".txt"
  {
    var n := stem + "." + ext;
    assert dir + "/" + stem + "." + ext == dir + "/" + n;
    BasenameAfterSlash(dir, n);
    assert '/' !in n;
    BasenameOfName(n);
    LastDotBefore(stem, ext);
    assert n[..|stem|] == stem;
  }

  lemma ExtensionsCollide(d1: string, d2: string, stem: string, e1: string, e2: string)
    requires '/' !in stem && stem != [] && !AllDots(stem)
    requires '/' !in e1 && '.' !in e1 && '/' !in e2 && '.' !in e2
    ensures AnnotationFileName(d1 + "/" + stem + "." + e1) == AnnotationFileName(d2 + "/" + stem + "." + e2)
  {
    StemOfSimpleName(d1, stem, e1);
    StemOfSimpleName(d2, stem, e2);
  }

  /** A name whose only dot leads it has no extension: the whole name
      becomes the stem. */
  lemma LeadingDotIsNoExtension()
    ensures AnnotationFileName(".hidden") == ".hidden.txt"
  {
    assert '/' !in ".hidden";
    BasenameOfName(".hidden");
    assert '.' !in "hidden";
    LastDotBefore("", "hidden");
    assert "" + "." + "hidden" == ".hidden";
  }

  /** The guard as written: the resolved path has the source directory as
      a character prefix. */
  predicate PathGuard(path: string, src: string)
  {
    StartsWith(path, src)
  }

  /** The directory with exactly one '/' at its end. */
  function WithSlash(dir: string): (r: string)
    ensures EndsWith(r, "/") && StartsWith(r, dir)
  {
    if EndsWith(dir, "/") then dir else dir + "/"
  }

  /** Containment by whole path components: the path is the directory
      itself or lies below it. */
  predicate IsInside(path: string, dir: string)
  {
    path == dir || StartsWith(path, WithSlash(dir))
  }

  /** The guard lets through a sibling directory whose name merely starts
      with the source directory's name. */
  lemma GuardAcceptsSibling()
    ensures PathGuard("/data/img-private/a.jpg", "/data/img")
    ensures !IsInside("/data/img-private/a.jpg", "/data/img")
  {
    var path, dir := "/data/img-private/a.jpg", "/data/img";
    assert path[..9] == dir;
    assert !EndsWith(dir, "/") by {
      assert dir[8] == 'g';
    }
    assert path[9] == '-' && WithSlash(dir)[9] == '/';
  }

  /** Exactly what the guard accepts beyond the component test: for a
      directory not ending in '/', paths that continue the directory's
      last name with some other character. */
  lemma GuardGap(path: string, dir: string)
    requires !EndsWith(dir, "/")
    ensures PathGuard(path, dir) && !IsInside(path, dir) <==>
              StartsWith(path, dir) && |path| > |dir| && path[|dir|] != '/'
  {
    if StartsWith(path, dir) && |path| > |dir| && path[|dir|] == '/' {
      assert path[..|dir| + 1] == dir + "/";
    }
    if StartsWith(path, dir + "/") {
      assert path[|dir|] == (dir + "/")[|dir|];
      assert path[..|dir|] == (dir + "/")[..|dir|];
    }
  }

  /** The component test holds exactly of the directory and of the paths
      that extend it after a '/'. */
  lemma IsInsideMeaning(path: string, dir: string)
    ensures IsInside(path, dir) <==> path == dir || exists rest :: path == WithSlash(dir) + rest
  {
    var d := WithSlash(dir);
    if StartsWith(path, d) {
      assert path == d + path[|d|..];
    }
  }

  /** Joining a relative path in normal form (no "..", so it cannot climb
      out) to a directory passes the component test, and so the guard as
      written too. */
  lemma JoinStaysInside(dir: string, rest: string)
    requires dir != [] && Normalised(rest)
    ensures IsInside(JoinPath(dir, rest), dir)
    ensures PathGuard(JoinPath(dir, rest), dir)
  {
    assert ComponentStart(rest, 0);
    assert !StartsWith(rest, "/");
    var d := WithSlash(dir);
    assert JoinPath(dir, rest) == d + rest;
    assert (d + rest)[..|d|] == d;
    assert (d + rest)[..|dir|] == dir;
  }

  /** What the component test accepts the prefix test accepts too: the
      guard as written is weaker, never stricter. */
  lemma InsideImpliesGuard(path: string, dir: string)
    requires IsInside(path, dir)
    ensures PathGuard(path, dir)
  {
    if path != dir {
      assert path[..|dir|] == WithSlash(dir)[..|dir|];
    }
  }
}
