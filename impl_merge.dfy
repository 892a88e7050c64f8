/** `parseRepositoryImpls`: one implementation record per contract, from the scans of the
    implementation package's files. The directory listing and each file's captures are
    inputs; reading them is the environment's business. */
module ImplMerge {
  import opened GoStrings
  import opened Types
  import opened Naming
  import opened ImplScan

  /** A file as read: its captures, or the message of the failure to read it. */
  datatype FileRead = Read(captures: seq<ImplCapture>) | ReadFailed(message: string)

  /** A directory entry: its name, whether it is a directory, the failure of `Info` if any,
      and what reading the file gives. */
  datatype Entry = Entry(name: string, isDir: bool, infoFailure: Option<string>, read: FileRead)

  /** The implementation directory: missing, unreadable, or a listing in directory order. */
  datatype Listing = NotExist | ListFailed(message: string) | Listed(entries: seq<Entry>)

  /** What the scans of the files gathered: the package name of the last file scanned, the
      file declaring each implementation type, and the methods of each receiver. */
  datatype Gathered = Gathered(pkg: string, declFile: map<string, string>, methods: map<string, seq<string>>)

  /** The file an implementation without one is given. */
  function DefaultFilename(r: Repository): (f: string)
    ensures HasSuffix(f, "_impl.go")
  {
    ToLower(Name(r)) + "_impl.go"
  }

  /** Entries that get past the first filter: regular entries named `*.go`. */
  predicate Candidate(e: Entry) {
    !e.isDir && HasSuffix(e.name, ".go")
  }

  /** Entries whose captures are scanned: Go sources that are not tests and could be read. */
  predicate Scanned(e: Entry) {
    Candidate(e) && e.infoFailure.None? && !HasSuffix(e.name, "_test.go") && e.read.Read?
  }

  /** Entries that stop the merge: the failure of `Info` comes before the test filter. */
  predicate Fails(e: Entry) {
    Candidate(e)
    && (e.infoFailure.Some?
        || (!HasSuffix(e.name, "_test.go") && (e.read.ReadFailed? || ScanImplSpec(e.read.captures).Err?)))
  }

  /** The lists of `b` appended to those of `a`, key by key. */
  function MergeMethods(a: map<string, seq<string>>, b: map<string, seq<string>>): (r: map<string, seq<string>>)
    ensures forall k :: Get(r, k) == Get(a, k) + Get(b, k)
    ensures r.Keys == a.Keys + b.Keys
  {
    map k | k in a.Keys + b.Keys :: Get(a, k) + Get(b, k)
  }

  /** One scanned file: its package wins, its types are declared in it, its methods are added. */
  function Absorb(g: Gathered, filename: string, f: ImplFile): (r: Gathered)
    ensures r.pkg == f.pkg
    ensures forall d :: d in r.declFile <==> d in g.declFile || d in f.decls
    ensures forall d :: d in f.decls ==> r.declFile[d] == filename
    ensures forall d :: d in g.declFile && d !in f.decls ==> r.declFile[d] == g.declFile[d]
  {
    Gathered(f.pkg, g.declFile + map d | d in f.decls :: filename, MergeMethods(g.methods, f.methods))
  }

  /** One entry of the listing. */
  function EntryStep(g: Gathered, e: Entry): (r: Result<Gathered>)
    ensures r.Err? <==> Fails(e)
    ensures !Fails(e) && !Scanned(e) ==> r == Ok(g)
    ensures !Fails(e) && Scanned(e) ==> r == Ok(Absorb(g, e.name, ScanImplSpec(e.read.captures).value))
  {
    if !Candidate(e) then Ok(g)
    else if e.infoFailure.Some? then Err(Io(e.infoFailure.value))
    else if HasSuffix(e.name, "_test.go") then Ok(g)
    else match e.read
      case ReadFailed(message) => Err(Io(message))
      case Read(cs) =>
        match ScanImplSpec(cs)
        case Err(err) => Err(err)
        case Ok(f) => Ok(Absorb(g, e.name, f))
  }

  /** The entries in directory order, starting from the default package name. */
  function GatherAll(dflt: string, es: seq<Entry>): Result<Gathered>
    decreases |es|
  {
    if es == [] then Ok(Gathered(dflt, map[], map[]))
    else match GatherAll(dflt, es[..|es| - 1])
      case Err(e) => Err(e)
      case Ok(g) => EntryStep(g, es[|es| - 1])
  }

  /** The record of one contract once the files are gathered. */
  function Resolve(r: Repository, g: Gathered, implPackagePath: string): RepositoryImpl {
    var implName := ImplName(r);
    if implName in g.declFile then
      RepositoryImpl(r, false, g.pkg, implPackagePath, g.declFile[implName], Get(g.methods, implName))
    else RepositoryImpl(r, true, g.pkg, implPackagePath, DefaultFilename(r), [])
  }

  /** What `parseRepositoryImpls` returns. */
  function MergeSpec(repos: seq<Repository>, implPackagePath: string, listing: Listing): (r: Result<seq<RepositoryImpl>>)
    ensures repos == [] ==> r == Ok([])
    ensures r.Ok? ==> (|r.value| == |repos|
      && forall i :: 0 <= i < |repos| ==> r.value[i].repo == repos[i] && r.value[i].implPackagePath == implPackagePath)
    ensures r.Err? <==> repos != [] && (listing.ListFailed? || (listing.Listed? && GatherAll(repos[0].pkg + "impl", listing.entries).Err?))
  {
    if repos == [] then Ok([])
    else
      var dflt := repos[0].pkg + "impl";
      match listing
      case NotExist =>
        Ok(seq(|repos|, i requires 0 <= i < |repos| =>
          RepositoryImpl(repos[i], true, dflt, implPackagePath, DefaultFilename(repos[i]), [])))
      case ListFailed(message) => Err(Io(message))
      case Listed(es) =>
        match GatherAll(dflt, es)
        case Err(e) => Err(e)
        case Ok(g) => Ok(ResolvedAll(repos, g, implPackagePath))
  }

  // ---------------------------------------------------------------------------------------
  // Reference definitions over the listing

  /** The scan of a scanned entry that succeeded at `i`. */
  predicate ScanOk(es: seq<Entry>, i: int) {
    0 <= i < |es| && Scanned(es[i]) && ScanImplSpec(es[i].read.captures).Ok?
  }

  function FileAt(es: seq<Entry>, i: int): ImplFile
    requires ScanOk(es, i)
  {
    ScanImplSpec(es[i].read.captures).value
  }

  /** The package of the last scanned file, or the default when no file is scanned. */
  function LastPackage(dflt: string, es: seq<Entry>): string
    decreases |es|
  {
    if es == [] then dflt
    else if ScanOk(es, |es| - 1) then FileAt(es, |es| - 1).pkg
    else LastPackage(dflt, es[..|es| - 1])
  }

  /** The methods the scanned files list under `k`, file after file. */
  function MethodsUnder(es: seq<Entry>, k: string): seq<string>
    decreases |es|
  {
    if es == [] then []
    else MethodsUnder(es[..|es| - 1], k) + (if ScanOk(es, |es| - 1) then Get(FileAt(es, |es| - 1).methods, k) else [])
  }

  /** The scanned file at `i` declares type `d`. */
  predicate Declares(es: seq<Entry>, i: int, d: string) {
    ScanOk(es, i) && d in FileAt(es, i).decls
  }

  /** `d` is declared at `i` and in no later file. */
  predicate LastDeclares(es: seq<Entry>, i: int, d: string) {
    Declares(es, i, d) && forall j :: i < j < |es| ==> !Declares(es, j, d)
  }

  // ---------------------------------------------------------------------------------------
  // What the merge promises

  lemma ScanOkOfPrefix(es: seq<Entry>, i: int)
    requires es != [] && i < |es| - 1
    ensures ScanOk(es[..|es| - 1], i) <==> ScanOk(es, i)
    ensures ScanOk(es, i) ==> FileAt(es[..|es| - 1], i) == FileAt(es, i)
  {
  }

  /** The merge fails exactly when some entry fails. */
  lemma {:induction false} GatherFails(dflt: string, es: seq<Entry>)
    ensures GatherAll(dflt, es).Err? <==> exists i :: 0 <= i < |es| && Fails(es[i])
    decreases |es|
  {
    if es != [] {
      var p := es[..|es| - 1];
      GatherFails(dflt, p);
      if i :| 0 <= i < |p| && Fails(p[i]) {
        assert Fails(es[i]);
      }
      if i :| 0 <= i < |es| && Fails(es[i]) {
        if i < |p| { assert Fails(p[i]); }
      }
    }
  }

  /** Without failures, every scanned entry scanned successfully. */
  lemma NoFailureScans(es: seq<Entry>, i: int)
    requires 0 <= i < |es| && !Fails(es[i]) && Scanned(es[i])
    ensures ScanOk(es, i)
  {
  }

  /** The package name is that of the last scanned file. */
  lemma {:induction false} GatherPackage(dflt: string, es: seq<Entry>)
    requires GatherAll(dflt, es).Ok?
    ensures GatherAll(dflt, es).value.pkg == LastPackage(dflt, es)
    decreases |es|
  {
    if es != [] {
      var p := es[..|es| - 1];
      GatherPackage(dflt, p);
    }
  }

  /** The methods of a receiver are those of all scanned files, in file order. */
  lemma {:induction false} GatherMethods(dflt: string, es: seq<Entry>, k: string)
    requires GatherAll(dflt, es).Ok?
    ensures Get(GatherAll(dflt, es).value.methods, k) == MethodsUnder(es, k)
    decreases |es|
  {
    if es != [] {
      var p := es[..|es| - 1];
      GatherMethods(dflt, p, k);
    }
  }

  lemma DeclaresOfPrefix(es: seq<Entry>, d: string)
    requires es != []
    ensures forall i :: 0 <= i < |es| - 1 ==> (Declares(es[..|es| - 1], i, d) <==> Declares(es, i, d))
    ensures forall i :: 0 <= i < |es| - 1 ==> (LastDeclares(es[..|es| - 1], i, d) && !Declares(es, |es| - 1, d)
                                               ==> LastDeclares(es, i, d))
  {
    forall i | 0 <= i < |es| - 1 ensures Declares(es[..|es| - 1], i, d) <==> Declares(es, i, d) {
      ScanOkOfPrefix(es, i);
    }
  }

  /** Only declared types are mapped to a file. */
  lemma {:induction false} GatherDeclared(dflt: string, es: seq<Entry>, d: string)
    requires GatherAll(dflt, es).Ok?
    ensures d in GatherAll(dflt, es).value.declFile <==> exists i :: Declares(es, i, d)
    decreases |es|
  {
    if es != [] {
      var p, n := es[..|es| - 1], |es| - 1;
      GatherDeclared(dflt, p, d);
      DeclaresOfPrefix(es, d);
      var g, e := GatherAll(dflt, p).value, es[n];
      var r := GatherAll(dflt, es).value;
      assert EntryStep(g, e) == Ok(r);
      if d in r.declFile && d !in g.declFile {
        assert Scanned(e) && ScanOk(es, n) && Declares(es, n, d);
      }
      if d in g.declFile {
        var i :| Declares(p, i, d);
        assert Declares(es, i, d);
      }
      if i :| Declares(es, i, d) {
        if i < n { assert Declares(p, i, d); } else { assert d in r.declFile; }
      }
    }
  }

  /** A type is mapped to the last scanned file declaring it. */
  lemma {:induction false} GatherDecls(dflt: string, es: seq<Entry>, d: string)
    requires GatherAll(dflt, es).Ok? && d in GatherAll(dflt, es).value.declFile
    ensures exists i :: LastDeclares(es, i, d) && GatherAll(dflt, es).value.declFile[d] == es[i].name
    decreases |es|
  {
    var p, n := es[..|es| - 1], |es| - 1;
    if Declares(es, n, d) {
      assert LastDeclares(es, n, d);
    } else {
      DeclaresOfPrefix(es, d);
      GatherDecls(dflt, p, d);
      var i :| LastDeclares(p, i, d) && GatherAll(dflt, p).value.declFile[d] == p[i].name;
      assert LastDeclares(es, i, d);
    }
  }

  /** With no implementation directory, every contract gets a new file in the default
      package `<contract package>impl`. */
  lemma MissingDirectory(repos: seq<Repository>, implPackagePath: string)
    requires repos != []
    ensures var r := MergeSpec(repos, implPackagePath, NotExist);
      r.Ok? && forall i :: 0 <= i < |repos| ==>
        r.value[i].isNew && r.value[i].implPackage == repos[0].pkg + "impl"
        && r.value[i].implFilename == ToLower(Name(repos[i])) + "_impl.go" && r.value[i].implMethods == []
  {
  }

  /** A contract whose implementation type some scanned file declares keeps that file and
      gets the methods all files declare on that type; any other contract is new. */
  lemma ResolvedRecord(repos: seq<Repository>, implPackagePath: string, es: seq<Entry>, i: nat)
    requires i < |repos| && MergeSpec(repos, implPackagePath, Listed(es)).Ok?
    ensures var r := MergeSpec(repos, implPackagePath, Listed(es)).value[i];
      var n := ImplName(repos[i]);
      r.implPackage == LastPackage(repos[0].pkg + "impl", es)
      && (r.isNew <==> !exists j :: Declares(es, j, n))
      && (!r.isNew ==> exists j :: LastDeclares(es, j, n) && r.implFilename == es[j].name)
      && (!r.isNew ==> r.implMethods == MethodsUnder(es, n))
      && (r.isNew ==> r.implFilename == DefaultFilename(repos[i]) && r.implMethods == [])
  {
    var dflt := repos[0].pkg + "impl";
    var n := ImplName(repos[i]);
    GatherPackage(dflt, es);
    GatherDeclared(dflt, es, n);
    if n in GatherAll(dflt, es).value.declFile {
      GatherDecls(dflt, es, n);
    }
    GatherMethods(dflt, es, n);
  }

  // ---------------------------------------------------------------------------------------
  // The loops

  /** The types of `done` mapped to the file, over what was gathered before. */
  function DeclaredSoFar(declFile: map<string, string>, done: set<string>, filename: string): map<string, string> {
    map d | d in declFile.Keys + done :: if d in done then filename else declFile[d]
  }

  lemma DeclareStep(declFile: map<string, string>, done: set<string>, filename: string, d: string)
    ensures DeclaredSoFar(declFile, done, filename)[d := filename] == DeclaredSoFar(declFile, done + {d}, filename)
  {
  }

  lemma DeclaredAll(declFile: map<string, string>, decls: set<string>, filename: string)
    ensures DeclaredSoFar(declFile, decls, filename) == declFile + map d | d in decls :: filename
  {
  }

  /** Every declared type of a file is mapped to that file. */
  method DeclareAll(declFile: map<string, string>, decls: set<string>, filename: string)
    returns (r: map<string, string>)
    ensures r == declFile + map d | d in decls :: filename
  {
    r := declFile;
    var rest := decls;
    ghost var done: set<string> := {};
    assert r == DeclaredSoFar(declFile, done, filename);
    while rest != {}
      invariant done + rest == decls && done !! rest
      invariant r == DeclaredSoFar(declFile, done, filename)
      decreases rest
    {
      var d :| d in rest;
      DeclareStep(declFile, done, filename, d);
      r := r[d := filename];
      done := done + {d};
      rest := rest - {d};
    }
    DeclaredAll(declFile, decls, filename);
  }

  /** The lists of the receivers in `done` appended to those gathered before. */
  function AppendedSoFar(methods: map<string, seq<string>>, add: map<string, seq<string>>, done: set<string>)
    : map<string, seq<string>>
  {
    map k | k in methods.Keys + done :: Get(methods, k) + if k in done then Get(add, k) else []
  }

  lemma AppendStep(methods: map<string, seq<string>>, add: map<string, seq<string>>, done: set<string>, rep: string)
    requires rep !in done && rep in add
    ensures var part := AppendedSoFar(methods, add, done);
      part[rep := Get(part, rep) + add[rep]] == AppendedSoFar(methods, add, done + {rep})
  {
    var part := AppendedSoFar(methods, add, done);
    var next := AppendedSoFar(methods, add, done + {rep});
    assert Get(part, rep) == Get(methods, rep);
    assert forall k :: k in next ==> next[k] == part[rep := Get(part, rep) + add[rep]][k];
  }

  lemma AppendedNone(methods: map<string, seq<string>>, add: map<string, seq<string>>)
    ensures AppendedSoFar(methods, add, {}) == methods
  {
    var none := AppendedSoFar(methods, add, {});
    assert forall k :: k in methods ==> none[k] == Get(methods, k) + [] == methods[k];
  }

  lemma AppendedAll(methods: map<string, seq<string>>, add: map<string, seq<string>>)
    ensures AppendedSoFar(methods, add, add.Keys) == MergeMethods(methods, add)
  {
  }

  /** The method lists of a file appended to those gathered, one receiver at a time. */
  method AppendAll(methods: map<string, seq<string>>, add: map<string, seq<string>>)
    returns (r: map<string, seq<string>>)
    ensures r == MergeMethods(methods, add)
  {
    r := methods;
    var keys := add.Keys;
    ghost var done: set<string> := {};
    AppendedNone(methods, add);
    while keys != {}
      invariant done + keys == add.Keys && done !! keys
      invariant r == AppendedSoFar(methods, add, done)
      decreases keys
    {
      var rep :| rep in keys;
      AppendStep(methods, add, done, rep);
      r := r[rep := Get(r, rep) + add[rep]];
      done := done + {rep};
      keys := keys - {rep};
    }
    AppendedAll(methods, add);
  }

  /** Folding one file's scan into what is gathered, as the two map loops do it. */
  method AbsorbFile(g: Gathered, filename: string, f: ImplFile) returns (r: Gathered)
    ensures r == Absorb(g, filename, f)
  {
    var declFile := DeclareAll(g.declFile, f.decls, filename);
    var methods := AppendAll(g.methods, f.methods);
    r := Gathered(f.pkg, declFile, methods);
  }

  lemma {:induction false} GatherStops(dflt: string, es: seq<Entry>, i: nat)
    requires i <= |es| && GatherAll(dflt, es[..i]).Err?
    ensures GatherAll(dflt, es) == GatherAll(dflt, es[..i])
    decreases |es| - i
  {
    if i < |es| {
      assert es[..i + 1][..i] == es[..i];
      GatherStops(dflt, es, i + 1);
    } else {
      assert es[..i] == es;
    }
  }

  /** The loop over the directory entries. */
  method GatherEntries(dflt: string, es: seq<Entry>) returns (r: Result<Gathered>)
    ensures r == GatherAll(dflt, es)
  {
    var g := Gathered(dflt, map[], map[]);
    for i := 0 to |es|
      invariant GatherAll(dflt, es[..i]) == Ok(g)
    {
      var e := es[i];
      assert es[..i + 1][..i] == es[..i];
      if e.isDir || !HasSuffix(e.name, ".go") {
        continue;
      }
      if e.infoFailure.Some? {
        GatherStops(dflt, es, i + 1);
        return Err(Io(e.infoFailure.value));
      }
      if HasSuffix(e.name, "_test.go") {
        continue;
      }
      match e.read {
        case ReadFailed(message) =>
          GatherStops(dflt, es, i + 1);
          return Err(Io(message));
        case Read(cs) =>
          var scan := ScanImplFile(cs);
          if scan.Err? {
            GatherStops(dflt, es, i + 1);
            return Err(scan.error);
          }
          g := AbsorbFile(g, e.name, scan.value);
      }
    }
    assert es[..|es|] == es;
    r := Ok(g);
  }

  /** The records before any field is set: each holds its contract only. */
  function Bare(repos: seq<Repository>): (r: seq<RepositoryImpl>)
    ensures |r| == |repos|
  {
    seq(|repos|, i requires 0 <= i < |repos| => RepositoryImpl(repos[i], false, "", "", "", []))
  }

  /** With no directory, every record becomes new, in place. */
  method MarkAllNew(impls: array<RepositoryImpl>, repos: seq<Repository>, pkg: string, implPackagePath: string)
    requires impls[..] == Bare(repos)
    modifies impls
    ensures impls[..] == seq(|repos|, i requires 0 <= i < |repos| =>
      RepositoryImpl(repos[i], true, pkg, implPackagePath, DefaultFilename(repos[i]), []))
  {
    for i := 0 to impls.Length
      invariant forall k :: 0 <= k < i ==>
        impls[k] == RepositoryImpl(repos[k], true, pkg, implPackagePath, DefaultFilename(repos[k]), [])
      invariant forall k :: i <= k < impls.Length ==> impls[k] == old(impls[k])
    {
      var repo := impls[i];
      impls[i] := repo.(implPackage := pkg, implPackagePath := implPackagePath,
                        implFilename := DefaultFilename(repo.repo), isNew := true);
    }
  }

  /** The records once the files are gathered. */
  function ResolvedAll(repos: seq<Repository>, g: Gathered, implPackagePath: string): (r: seq<RepositoryImpl>)
    ensures |r| == |repos|
  {
    seq(|repos|, i requires 0 <= i < |repos| => Resolve(repos[i], g, implPackagePath))
  }

  /** Each record takes its declaring file and methods, or becomes new, in place. */
  method ResolveAll(impls: array<RepositoryImpl>, repos: seq<Repository>, g: Gathered, implPackagePath: string)
    requires impls[..] == Bare(repos)
    modifies impls
    ensures impls[..] == ResolvedAll(repos, g, implPackagePath)
  {
    ghost var want := ResolvedAll(repos, g, implPackagePath);
    for i := 0 to impls.Length
      invariant impls[..i] == want[..i]
      invariant impls[i..] == Bare(repos)[i..]
    {
      var repo := impls[i];
      var implName := ImplName(repo.repo);
      repo := repo.(implPackage := g.pkg, implPackagePath := implPackagePath);
      if implName in g.declFile {
        repo := repo.(implFilename := g.declFile[implName], implMethods := Get(g.methods, implName));
      } else {
        repo := repo.(implFilename := DefaultFilename(repo.repo), isNew := true);
      }
      impls[i] := repo;
      assert impls[..i + 1] == want[..i] + [repo];
    }
    assert impls[..] == impls[..impls.Length];
  }

  /** `parseRepositoryImpls` after the directory is listed and its files are read. */
  method ParseRepositoryImpls(repos: seq<Repository>, implPackagePath: string, listing: Listing)
    returns (r: Result<seq<RepositoryImpl>>)
    ensures r == MergeSpec(repos, implPackagePath, listing)
  {
    if |repos| == 0 {
      return Ok([]);
    }
    var implPackageName := repos[0].pkg + "impl";
    var impls := new RepositoryImpl[|repos|](i requires 0 <= i < |repos| => RepositoryImpl(repos[i], false, "", "", "", []));
    assert impls[..] == Bare(repos);
    match listing {
      case ListFailed(message) =>
        return Err(Io(message));
      case NotExist =>
        MarkAllNew(impls, repos, implPackageName, implPackagePath);
        return Ok(impls[..]);
      case Listed(es) =>
        var gathered := GatherEntries(implPackageName, es);
        if gathered.Err? {
          return Err(gathered.error);
        }
        ResolveAll(impls, repos, gathered.value, implPackagePath);
        return Ok(impls[..]);
    }
  }
}
