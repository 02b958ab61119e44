/** Which files the server offers as images (main.py:13-25): a
    case-insensitive suffix test, and the sorted list of every image file
    found by walking the source directory. */
module ImageFiles {
  import opened Strings
  import opened Paths

  const ImageExtensions: seq<string> := [".jpg", ".jpeg", ".png", ".bmp", ".gif"]

  /** `is_image_file`: the lower-cased name ends with one of the five
      extensions. */
  predicate IsImageFile(name: string)
  {
    var n := Lower(name);
    EndsWith(n, ".jpg") || EndsWith(n, ".jpeg") || EndsWith(n, ".png")
    || EndsWith(n, ".bmp") || EndsWith(n, ".gif")
  }

  /** The test is `endswith` over the tuple of extensions: a name is an
      image file exactly when its lower-cased form ends with one of them. */
  lemma ImageFileMeaning(name: string)
    ensures IsImageFile(name) <==> exists e :: e in ImageExtensions && EndsWith(Lower(name), e)
  {
    var n := Lower(name);
    if IsImageFile(name) {
      var e := if EndsWith(n, ".jpg") then ".jpg"
               else if EndsWith(n, ".jpeg") then ".jpeg"
               else if EndsWith(n, ".png") then ".png"
               else if EndsWith(n, ".bmp") then ".bmp"
               else ".gif";
      assert e in ImageExtensions && EndsWith(n, e);
    }
  }

  /** The test ignores letter case: a name and its lower-cased form are
      classified alike. */
  lemma ImageFileIgnoresCase(name: string)
    ensures IsImageFile(Lower(name)) == IsImageFile(name)
  {
    LowerIdempotent(name);
  }

  /** One step of `os.walk`: a directory and the names of the files in it. */
  datatype WalkStep = WalkStep(root: string, files: seq<string>)

  /** The image paths of one directory, in the order of its file names. */
  function ImagesIn(root: string, files: seq<string>): seq<string>
  {
    if files == [] then []
    else
      var last := files[|files| - 1];
      ImagesIn(root, files[..|files| - 1]) + (if IsImageFile(last) then [JoinPath(root, last)] else [])
  }

  /** The image paths of a whole walk, in walk order, before sorting. */
  function Candidates(walk: seq<WalkStep>): seq<string>
  {
    if walk == [] then []
    else Candidates(walk[..|walk| - 1]) + ImagesIn(walk[|walk| - 1].root, walk[|walk| - 1].files)
  }

  /** File j of the directory `step` is an image file that joins to p. */
  predicate CollectedIn(step: WalkStep, j: int, p: string)
  {
    0 <= j < |step.files| && IsImageFile(step.files[j]) && p == JoinPath(step.root, step.files[j])
  }

  /** A path is collected from a directory exactly when it is the join of
      the directory with one of its file names that passes the test. */
  lemma {:induction false} ImagesInMembership(root: string, files: seq<string>, p: string)
    ensures p in ImagesIn(root, files) <==> exists j :: CollectedIn(WalkStep(root, files), j, p)
    decreases |files|
  {
    if files != [] {
      var n := |files| - 1;
      var init := files[..n];
      ImagesInMembership(root, init, p);
      if p in ImagesIn(root, init) {
        var j :| CollectedIn(WalkStep(root, init), j, p);
        assert CollectedIn(WalkStep(root, files), j, p);
      } else if p in ImagesIn(root, files) {
        assert CollectedIn(WalkStep(root, files), n, p);
      }
      if exists j :: CollectedIn(WalkStep(root, files), j, p) {
        var j :| CollectedIn(WalkStep(root, files), j, p);
        if j < n {
          assert CollectedIn(WalkStep(root, init), j, p);
        } else {
          assert ImagesIn(root, files) == ImagesIn(root, init) + [JoinPath(root, files[n])];
        }
      }
    }
  }

  /** File j of directory i of the walk is an image file that joins to p. */
  predicate CollectedAt(walk: seq<WalkStep>, i: int, j: int, p: string)
  {
    0 <= i < |walk| && 0 <= j < |walk[i].files|
    && IsImageFile(walk[i].files[j]) && p == JoinPath(walk[i].root, walk[i].files[j])
  }

  /** Collected somewhere in a walk with one more directory: in the walk
      before it, or in that directory. */
  lemma CollectedSnoc(init: seq<WalkStep>, last: WalkStep, p: string)
    ensures (exists i, j :: CollectedAt(init + [last], i, j, p)) <==>
              (exists i, j :: CollectedAt(init, i, j, p)) || (exists j :: CollectedIn(last, j, p))
  {
    var walk := init + [last];
    var n := |init|;
    if exists i, j :: CollectedAt(walk, i, j, p) {
      var i, j :| CollectedAt(walk, i, j, p);
      if i < n {
        assert CollectedAt(init, i, j, p);
      } else {
        assert CollectedIn(last, j, p);
      }
    }
    if exists i, j :: CollectedAt(init, i, j, p) {
      var i, j :| CollectedAt(init, i, j, p);
      assert CollectedAt(walk, i, j, p);
    }
    if exists j :: CollectedIn(last, j, p) {
      var j :| CollectedIn(last, j, p);
      assert CollectedAt(walk, n, j, p);
    }
  }

  /** A path is collected from the walk exactly when some directory of the
      walk has a file name that passes the test and joins to it. */
  lemma {:induction false} CandidatesMembership(walk: seq<WalkStep>, p: string)
    ensures p in Candidates(walk) <==> exists i, j :: CollectedAt(walk, i, j, p)
    decreases |walk|
  {
    if walk != [] {
      var init, last := walk[..|walk| - 1], walk[|walk| - 1];
      CandidatesMembership(init, p);
      ImagesInMembership(last.root, last.files, p);
      assert init + [last] == walk;
      assert WalkStep(last.root, last.files) == last;
      CollectedSnoc(init, last, p);
    }
  }

  /** Python's string order: lexicographic by code point, a proper prefix
      first. */
  predicate LexLe(a: string, b: string)
    decreases |a|
  {
    a == [] || (b != [] && (a[0] < b[0] || (a[0] == b[0] && LexLe(a[1..], b[1..]))))
  }

  lemma {:induction false} LexLeTotal(a: string, b: string)
    ensures LexLe(a, b) || LexLe(b, a)
    decreases |a|
  {
    if a != [] && b != [] && a[0] == b[0] {
      LexLeTotal(a[1..], b[1..]);
    }
  }

  lemma {:induction false} LexLeTransitive(a: string, b: string, c: string)
    requires LexLe(a, b) && LexLe(b, c)
    ensures LexLe(a, c)
    decreases |a|
  {
    if a != [] && a[0] == b[0] && b[0] == c[0] {
      LexLeTransitive(a[1..], b[1..], c[1..]);
    }
  }

  lemma {:induction false} LexLeAntisymmetric(a: string, b: string)
    requires LexLe(a, b) && LexLe(b, a)
    ensures a == b
    decreases |a|
  {
    if a != [] {
      LexLeAntisymmetric(a[1..], b[1..]);
      assert a == [a[0]] + a[1..] && b == [b[0]] + b[1..];
    }
  }

  lemma {:induction false} LexLeReflexive(a: string)
    ensures LexLe(a, a)
    decreases |a|
  {
    if a != [] {
      LexLeReflexive(a[1..]);
    }
  }

  predicate Sorted(s: seq<string>)
  {
    forall i, j :: 0 <= i < j < |s| ==> LexLe(s[i], s[j])
  }

  /** Inserting x after every element not above it keeps a list sorted. */
  lemma {:induction false} InsertKeepsSorted(r: seq<string>, k: nat, x: string)
    requires Sorted(r) && k <= |r|
    requires forall m :: 0 <= m < k ==> LexLe(r[m], x)
    requires k < |r| ==> !LexLe(r[k], x)
    ensures Sorted(r[..k] + [x] + r[k..])
  {
    if k < |r| {
      LexLeTotal(r[k], x);
      forall m | k <= m < |r|
        ensures LexLe(x, r[m])
      {
        if m > k {
          LexLeTransitive(x, r[k], r[m]);
        }
      }
    }
    var t := r[..k] + [x] + r[k..];
    forall i, j | 0 <= i < j < |t|
      ensures LexLe(t[i], t[j])
    {
      if j < k {
        assert t[i] == r[i] && t[j] == r[j];
      } else if j == k {
        assert t[i] == r[i];
      } else if i == k {
        assert t[j] == r[j - 1];
      } else if i < k {
        assert t[i] == r[i] && t[j] == r[j - 1];
      } else {
        assert t[i] == r[i - 1] && t[j] == r[j - 1];
      }
    }
  }

  /** `imgs.sort()`, as an insertion sort. */
  method SortPaths(a: seq<string>) returns (r: seq<string>)
    ensures Sorted(r)
    ensures multiset(r) == multiset(a)
  {
    r := [];
    var i := 0;
    while i < |a|
      invariant 0 <= i <= |a|
      invariant Sorted(r)
      invariant multiset(r) == multiset(a[..i])
    {
      var x := a[i];
      var k := 0;
      while k < |r| && LexLe(r[k], x)
        invariant 0 <= k <= |r|
        invariant forall m :: 0 <= m < k ==> LexLe(r[m], x)
      {
        k := k + 1;
      }
      InsertKeepsSorted(r, k, x);
      assert r == r[..k] + r[k..];
      assert a[..i + 1] == a[..i] + [x];
      r := r[..k] + [x] + r[k..];
      i := i + 1;
    }
    assert a[..|a|] == a;
  }

  lemma SortedTail(s: seq<string>)
    requires Sorted(s) && s != []
    ensures Sorted(s[1..])
  {
    forall i, j | 0 <= i < j < |s| - 1
      ensures LexLe(s[1..][i], s[1..][j])
    {
      assert s[1..][i] == s[i + 1] && s[1..][j] == s[j + 1];
    }
  }

  lemma MultisetTail(s: seq<string>)
    requires s != []
    ensures multiset(s[1..]) == multiset(s) - multiset{s[0]}
  {
    assert s == [s[0]] + s[1..];
  }

  /** The head of a sorted list is below every element of it. */
  lemma HeadIsLeast(s: seq<string>, k: int)
    requires Sorted(s) && 0 <= k < |s|
    ensures LexLe(s[0], s[k])
  {
    if k == 0 {
      LexLeReflexive(s[0]);
    }
  }

  /** A sorted arrangement of a multiset of strings is unique, so the
      insertion sort gives the list Python's sort gives. */
  lemma {:induction false} SortedIsUnique(a: seq<string>, b: seq<string>)
    requires Sorted(a) && Sorted(b) && multiset(a) == multiset(b)
    ensures a == b
    decreases |a|
  {
    if a == [] {
      assert |multiset(b)| == 0;
    } else {
      assert b != [] by {
        assert a[0] in multiset(a);
      }
      assert a[0] in multiset(b);
      var j :| 0 <= j < |b| && b[j] == a[0];
      assert b[0] in multiset(a);
      var i :| 0 <= i < |a| && a[i] == b[0];
      HeadIsLeast(a, i);
      HeadIsLeast(b, j);
      LexLeAntisymmetric(a[0], b[0]);
      MultisetTail(a);
      MultisetTail(b);
      SortedTail(a);
      SortedTail(b);
      SortedIsUnique(a[1..], b[1..]);
      assert a == [a[0]] + a[1..] && b == [b[0]] + b[1..];
    }
  }

  /** `list_images`: walk, keep image files, sort. */
  method ListImages(walk: seq<WalkStep>) returns (imgs: seq<string>)
    ensures Sorted(imgs)
    ensures multiset(imgs) == multiset(Candidates(walk))
  {
    imgs := [];
    var i := 0;
    while i < |walk|
      invariant 0 <= i <= |walk|
      invariant imgs == Candidates(walk[..i])
    {
      var step := walk[i];
      var j := 0;
      while j < |step.files|
        invariant 0 <= j <= |step.files|
        invariant imgs == Candidates(walk[..i]) + ImagesIn(step.root, step.files[..j])
      {
        var f := step.files[j];
        if IsImageFile(f) {
          imgs := imgs + [JoinPath(step.root, f)];
        }
        assert step.files[..j + 1][..j] == step.files[..j];
        j := j + 1;
      }
      assert step.files[..j] == step.files;
      assert walk[..i + 1][..i] == walk[..i];
      i := i + 1;
    }
    assert walk[..i] == walk;
    imgs := SortPaths(imgs);
  }
}
