/** Where things are on disk: which files of the API tree are read (`crawlAPI`) and where the
    implementation package of an API package lives (`computeImplPackagePath`). */
module Layout {
  import opened GoStrings
  import opened GoPath
  import opened Types
  import opened Grouping

  // ---------------------------------------------------------------------------------------
  // computeImplPackagePath
  // ---------------------------------------------------------------------------------------

  /** The segments a package path must start with: those of the cleaned API root, or none when
      the root is the current directory. */
  function RootParts(root: string): seq<string> {
    if root == "." then [] else Split(root, '/')
  }

  /** `path.Join` applied to each element in turn, starting from `base`. */
  function JoinEach(base: string, es: seq<string>): string
    decreases |es|
  {
    if es == [] then base else Join(JoinEach(base, es[..|es| - 1]), es[|es| - 1])
  }

  lemma JoinEachStep(base: string, es: seq<string>, from: nat, i: nat)
    requires from <= i < |es|
    ensures JoinEach(base, es[from..i + 1]) == Join(JoinEach(base, es[from..i]), es[i])
  {
    assert es[from..i + 1][..i - from] == es[from..i];
  }

  /** The reference definition, on cleaned paths: the package path's segments past the root's
      are joined onto the implementation root, unless a segment the two share differs. */
  function Rebased(root: string, impl: string, pkg: string): Result<string> {
    var rootParts := RootParts(root);
    var parts := Split(pkg, '/');
    var n := if |rootParts| < |parts| then |rootParts| else |parts|;
    if exists i :: 0 <= i < n && rootParts[i] != parts[i] then Err(NotNested)
    else Ok(JoinEach(impl, parts[n..]))
  }

  /** What `computeImplPackagePath` computes: its three arguments are cleaned first. */
  function ImplPackagePath(apiRoot: string, implRoot: string, apiPackagePath: string): Result<string> {
    Rebased(Clean(apiRoot), Clean(implRoot), Clean(apiPackagePath))
  }

  lemma RebasedOk(root: string, impl: string, pkg: string, n: nat)
    requires var parts := Split(pkg, '/'); var rp := RootParts(root);
      n == (if |rp| < |parts| then |rp| else |parts|) && rp[..n] == parts[..n]
    ensures Rebased(root, impl, pkg) == Ok(JoinEach(impl, Split(pkg, '/')[n..]))
  {
    var parts := Split(pkg, '/');
    var rp := RootParts(root);
    forall i | 0 <= i < n ensures rp[i] == parts[i] {
      assert rp[..n][i] == parts[..n][i];
    }
  }

  lemma RebasedErr(root: string, impl: string, pkg: string, i: nat)
    requires i < |RootParts(root)| && i < |Split(pkg, '/')| && RootParts(root)[i] != Split(pkg, '/')[i]
    ensures Rebased(root, impl, pkg) == Err(NotNested)
  {
  }

  /** The state of the loop of `computeImplPackagePath` before segment `i`: the segments
      under the root checked so far agree with the root's, and those past it are joined on. */
  ghost predicate Rebasing(root: string, impl: string, parts: seq<string>, i: nat, acc: string) {
    var rp := RootParts(root);
    var m := if i < |rp| then i else |rp|;
    i <= |parts| && rp[..m] == parts[..m] && acc == JoinEach(impl, parts[m..i])
  }

  /** One turn of the loop: a segment under the root is checked, one past it is joined on. */
  method RebaseStep(root: string, rootParts: seq<string>, impl: string, parts: seq<string>, i: nat, acc: string)
    returns (mismatch: bool, acc': string)
    requires rootParts == Split(root, '/') && i < |parts| && Rebasing(root, impl, parts, i, acc)
    ensures mismatch ==> i < |RootParts(root)| && RootParts(root)[i] != parts[i]
    ensures !mismatch ==> Rebasing(root, impl, parts, i + 1, acc')
  {
    ghost var rp := RootParts(root);
    if i < |rootParts| && root != "." {
      assert rp == rootParts;
      if rootParts[i] != parts[i] {
        return true, acc;
      }
      assert rp[..i + 1] == rp[..i] + [rp[i]];
      assert parts[..i + 1] == parts[..i] + [parts[i]];
      assert parts[i + 1..i + 1] == [];
      return false, acc;
    }
    assert i >= |rp|;
    JoinEachStep(impl, parts, |rp|, i);
    acc' := Join(acc, parts[i]);
    mismatch := false;
  }

  /** `computeImplPackagePath`. */
  method ComputeImplPackagePath(apiRoot: string, implRoot: string, apiPackagePath: string)
    returns (r: Result<string>)
    ensures r == ImplPackagePath(apiRoot, implRoot, apiPackagePath)
  {
    var root := Clean(apiRoot);
    var impl := Clean(implRoot);
    var pkg := Clean(apiPackagePath);
    var implPackagePath := impl;
    var parts := Split(pkg, '/');
    var rootParts := Split(root, '/');
    for i := 0 to |parts|
      invariant Rebasing(root, impl, parts, i, implPackagePath)
    {
      var mismatch;
      mismatch, implPackagePath := RebaseStep(root, rootParts, impl, parts, i, implPackagePath);
      if mismatch {
        RebasedErr(root, impl, pkg, i);
        return Err(NotNested);
      }
    }
    ghost var skip := |RootParts(root)|;
    ghost var n := if |parts| < skip then |parts| else skip;
    RebasedOk(root, impl, pkg, n);
    assert parts[n..|parts|] == parts[n..];
    return Ok(implPackagePath);
  }

  /** Under the root `.` every segment of the package path is joined onto the implementation
      root. */
  lemma DotRootJoinsAll(apiRoot: string, implRoot: string, apiPackagePath: string)
    requires Clean(apiRoot) == "."
    ensures ImplPackagePath(apiRoot, implRoot, apiPackagePath)
         == Ok(JoinEach(Clean(implRoot), Split(Clean(apiPackagePath), '/')))
  {
    var parts := Split(Clean(apiPackagePath), '/');
    assert parts[0..] == parts;
  }

  /** Joining plain elements onto a plain path only puts slashes between them. */
  lemma {:induction false} JoinEachPlain(base: string, es: seq<string>)
    requires PlainPath(base) && |es| >= 1
    requires forall i :: 0 <= i < |es| ==> PlainElement(es[i])
    ensures JoinEach(base, es) == base + "/" + JoinWith(es, "/")
    ensures PlainPath(JoinEach(base, es))
    decreases |es|
  {
    var init := es[..|es| - 1];
    var e := es[|es| - 1];
    if init == [] {
      assert es == [e];
      assert JoinEach(base, es) == Join(base, e);
      JoinPlain(base, e);
    } else {
      JoinEachPlain(base, init);
      var p := JoinEach(base, init);
      JoinPlain(p, e);
      assert init + [e] == es;
      JoinWithSnoc(init, "/", e);
      Regrouped(base + "/", JoinWith(init, "/"), "/" + e);
      Regrouped(base, "/", JoinWith(init, "/"));
      Regrouped(base + "/" + JoinWith(init, "/"), "/", e);
      Regrouped(JoinWith(init, "/"), "/", e);
      Regrouped(base, "/", JoinWith(init, "/") + "/" + e);
    }
  }

  /** A plain package path `root/rest` under a plain root maps to `implRoot/rest`: the
      root's segments are dropped and the rest keep their order. */
  lemma NestedPackage(root: string, implRoot: string, rest: string)
    requires PlainPath(root) && PlainPath(implRoot) && PlainPath(rest)
    ensures ImplPackagePath(root, implRoot, root + "/" + rest) == Ok(implRoot + "/" + rest)
  {
    var rootParts := Split(root, '/');
    var restParts := Split(rest, '/');
    SplitAppend(root, '/', rest);
    var pkg := root + "/" + rest;
    assert Split(pkg, '/') == rootParts + restParts;
    assert PlainPath(pkg) by {
      forall i | 0 <= i < |rootParts + restParts|
        ensures PlainElement((rootParts + restParts)[i])
      {
        if i >= |rootParts| {
          assert (rootParts + restParts)[i] == restParts[i - |rootParts|];
        }
      }
    }
    CleanPlain(root);
    CleanPlain(implRoot);
    CleanPlain(pkg);
    assert rootParts[0] != ".";
    assert RootParts(root) == rootParts;
    var parts := rootParts + restParts;
    assert parts[|rootParts|..] == restParts;
    assert forall i :: 0 <= i < |rootParts| ==> rootParts[i] == parts[i];
    JoinEachPlain(implRoot, restParts);
    JoinSplit(rest, '/');
    assert JoinWith(restParts, "/") == rest;
  }

  /** A package path that stops inside the root is accepted and maps to the implementation
      root itself. */
  lemma InsideRoot(p: string, more: string, implRoot: string)
    requires PlainPath(p) && PlainPath(more)
    ensures ImplPackagePath(p + "/" + more, implRoot, p) == Ok(Clean(implRoot))
  {
    var parts := Split(p, '/');
    var moreParts := Split(more, '/');
    var root := p + "/" + more;
    SplitAppend(p, '/', more);
    assert Split(root, '/') == parts + moreParts;
    assert PlainPath(root) by {
      forall i | 0 <= i < |parts + moreParts|
        ensures PlainElement((parts + moreParts)[i])
      {
        if i >= |parts| {
          assert (parts + moreParts)[i] == moreParts[i - |parts|];
        }
      }
    }
    CleanPlain(root);
    CleanPlain(p);
    assert parts[0] != ".";
    assert RootParts(root) == parts + moreParts;
    assert forall i :: 0 <= i < |parts| ==> (parts + moreParts)[i] == parts[i];
    assert parts[|parts|..] == [];
  }

  /** A plain package path whose first segment is not the plain root's is refused. */
  lemma OutsideRoot(root: string, implRoot: string, apiPackagePath: string)
    requires PlainPath(root) && PlainPath(apiPackagePath)
    requires Split(root, '/')[0] != Split(apiPackagePath, '/')[0]
    ensures ImplPackagePath(root, implRoot, apiPackagePath) == Err(NotNested)
  {
    CleanPlain(root);
    CleanPlain(apiPackagePath);
    assert Split(root, '/')[0] != ".";
    assert RootParts(root)[0] != Split(apiPackagePath, '/')[0];
  }

  // ---------------------------------------------------------------------------------------
  // crawlAPI
  // ---------------------------------------------------------------------------------------

  /** What the directory walk hands the callback, in walk order: an entry (the walk's own
      root and every path below it) or a failure to read one. */
  datatype Visit = Entry(path: string, isDir: bool) | Failure(message: string)

  /** A Go source file that is not a test file. */
  predicate Wanted(p: string) {
    HasSuffix(p, ".go") && !HasSuffix(p, "_test.go")
  }

  /** The paths of the wanted files the walk meets, in walk order. */
  function WantedFiles(vs: seq<Visit>): (ps: seq<string>)
    ensures |ps| <= |vs|
    decreases |vs|
  {
    if vs == [] then []
    else
      var v := vs[|vs| - 1];
      WantedFiles(vs[..|vs| - 1]) + (if v.Entry? && !v.isDir && Wanted(v.path) then [v.path] else [])
  }

  /** Each path as the (directory, file name) pair it is filed under. */
  function Placed(ps: seq<string>): (r: seq<(string, string)>)
    ensures |r| == |ps|
  {
    seq(|ps|, j requires 0 <= j < |ps| => (Dir(ps[j]), Base(ps[j])))
  }

  /** The message of the first failure, the one that stops the walk. */
  function FirstFailure(vs: seq<Visit>): Option<string>
    decreases |vs|
  {
    if vs == [] then None
    else if vs[0].Failure? then Some(vs[0].message)
    else FirstFailure(vs[1..])
  }

  /** The reference definition: the first failure ends the crawl with that error; otherwise
      the wanted files grouped by directory. */
  function Crawled(vs: seq<Visit>): Result<map<string, seq<string>>> {
    match FirstFailure(vs)
    case Some(m) => Err(Io(m))
    case None => Ok(Group(Placed(WantedFiles(vs))))
  }

  lemma PlacedSnoc(ps: seq<string>, p: string)
    ensures Placed(ps + [p]) == Placed(ps) + [(Dir(p), Base(p))]
  {
  }

  /** One step of the walk callback: a failure is returned, a directory or an unwanted file
      is passed over, a wanted file is appended to its directory's list. */
  method Visited(files: map<string, seq<string>>, v: Visit, ghost vs: seq<Visit>)
    returns (failed: bool, files': map<string, seq<string>>)
    requires vs != [] && v == vs[|vs| - 1] && files == Group(Placed(WantedFiles(vs[..|vs| - 1])))
    ensures failed <==> v.Failure?
    ensures !failed ==> files' == Group(Placed(WantedFiles(vs)))
  {
    if v.Failure? {
      return true, files;
    }
    ghost var before := WantedFiles(vs[..|vs| - 1]);
    files' := files;
    if !v.isDir && Wanted(v.path) {
      var filename := Base(v.path);
      var dir := Dir(v.path);
      files' := files[dir := (if dir in files then files[dir] else []) + [filename]];
      assert WantedFiles(vs) == before + [v.path];
      PlacedSnoc(before, v.path);
      GroupSnoc(Placed(before), dir, filename);
    } else {
      assert WantedFiles(vs) == before + [];
      assert before + [] == before;
    }
    failed := false;
  }

  /** `crawlAPI`, on the sequence of visits the walk makes under the cleaned API root. */
  method CrawlApi(visits: seq<Visit>) returns (r: Result<map<string, seq<string>>>)
    ensures r == Crawled(visits)
  {
    var files: map<string, seq<string>> := map[];
    var i := 0;
    while i < |visits|
      invariant 0 <= i <= |visits|
      invariant FirstFailure(visits) == FirstFailure(visits[i..])
      invariant files == Group(Placed(WantedFiles(visits[..i])))
    {
      ghost var next := visits[..i + 1];
      assert next[..i] == visits[..i];
      var failed;
      failed, files := Visited(files, visits[i], next);
      if failed {
        return Err(Io(visits[i].message));
      }
      assert visits[i..][1..] == visits[i + 1..];
      i := i + 1;
      assert next == visits[..i];
    }
    assert visits[..|visits|] == visits;
    return Ok(files);
  }

  /** A path is among the wanted files exactly when the walk met it as a file and it is a Go
      source file that is not a test. */
  lemma {:induction false} WantedFilesExactly(vs: seq<Visit>, p: string)
    ensures p in WantedFiles(vs) <==> Entry(p, false) in vs && Wanted(p)
    decreases |vs|
  {
    if vs != [] {
      var init := vs[..|vs| - 1];
      WantedFilesExactly(init, p);
      assert vs == init + [vs[|vs| - 1]];
    }
  }

  /** A pair is placed exactly when one of the paths has that directory and base name. */
  lemma PlacedExactly(ps: seq<string>, d: string, f: string)
    ensures (d, f) in Placed(ps) <==> exists p :: p in ps && Dir(p) == d && Base(p) == f
  {
    if (d, f) in Placed(ps) {
      var j :| 0 <= j < |ps| && Placed(ps)[j] == (d, f);
      assert ps[j] in ps;
    }
    if exists p :: p in ps && Dir(p) == d && Base(p) == f {
      var p :| p in ps && Dir(p) == d && Base(p) == f;
      var j :| 0 <= j < |ps| && ps[j] == p;
      assert Placed(ps)[j] == (d, f);
    }
  }

  /** A successful crawl lists a name under a directory exactly when the walk met a wanted
      file with that directory and base name. */
  lemma CrawlLists(vs: seq<Visit>, d: string, f: string)
    requires Crawled(vs).Ok?
    ensures (d in Crawled(vs).value && f in Crawled(vs).value[d]) <==>
      exists p :: Entry(p, false) in vs && Wanted(p) && Dir(p) == d && Base(p) == f
  {
    var ps := WantedFiles(vs);
    GroupIsMembers(Placed(ps), d);
    MembersExactly(Placed(ps), d, f);
    PlacedExactly(ps, d, f);
    forall p ensures p in ps <==> Entry(p, false) in vs && Wanted(p) {
      WantedFilesExactly(vs, p);
    }
  }

  /** A successful crawl lists each directory's files in walk order. */
  lemma CrawlOrder(vs: seq<Visit>, d: string)
    requires Crawled(vs).Ok? && d in Crawled(vs).value
    ensures Crawled(vs).value[d] == Members(Placed(WantedFiles(vs)), d)
    ensures Crawled(vs).value[d] != []
  {
    GroupIsMembers(Placed(WantedFiles(vs)), d);
  }

  /** A wanted file `d/f` in a plain directory is listed as `f` under `d`. */
  lemma CrawlPlacesFile(vs: seq<Visit>, d: string, f: string)
    requires Crawled(vs).Ok? && Entry(d + "/" + f, false) in vs
    requires PlainPath(d) && PlainElement(f) && Wanted(d + "/" + f)
    ensures d in Crawled(vs).value && f in Crawled(vs).value[d]
  {
    DirBaseOfPlain(d, f);
    CrawlLists(vs, d, f);
  }

  /** Any failure during the walk makes the crawl fail. */
  lemma {:induction false} CrawlFails(vs: seq<Visit>, i: nat)
    requires i < |vs| && vs[i].Failure?
    ensures Crawled(vs).Err?
    decreases i
  {
    if !vs[0].Failure? {
      CrawlFails(vs[1..], i - 1);
    }
  }
}
