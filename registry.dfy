/** `generateRepositoryStubFile`: the package-level file that registers every implementation
    with fx. The records are sorted in place, one mock directive is kept per contract file,
    and every implementation's options are listed. */
module Registry {
  import opened GoStrings
  import opened GoPath
  import opened Types
  import opened Naming
  import opened Signature
  import opened Templates
  import opened Imports

  // The order of the records

  /** The contract named plainly `Repository`. */
  predicate Bare(r: RepositoryImpl) {
    r.repo.ident == Suffix
  }

  /** The comparator given to `sort.Slice`, as written: within an implementation package the
      bare `Repository` comes first, then the others by identifier. */
  predicate GoLess(a: RepositoryImpl, b: RepositoryImpl) {
    if a.implPackage == b.implPackage then
      if Bare(a) then true
      else if Bare(b) then false
      else LexLess(a.repo.ident, b.repo.ident)
    else LexLess(a.implPackage, b.implPackage)
  }

  /** The order the comparator describes, as a strict order: by implementation package,
      then the bare `Repository` first, then by identifier. */
  predicate Before(a: RepositoryImpl, b: RepositoryImpl) {
    if a.implPackage == b.implPackage then
      if Bare(a) != Bare(b) then Bare(a) else LexLess(a.repo.ident, b.repo.ident)
    else LexLess(a.implPackage, b.implPackage)
  }

  predicate NotAfter(a: RepositoryImpl, b: RepositoryImpl) {
    !Before(b, a)
  }

  /** The comparator and the strict order agree except on two bare contracts of one
      package. */
  lemma ComparatorAgrees(a: RepositoryImpl, b: RepositoryImpl)
    requires !(Bare(a) && Bare(b) && a.implPackage == b.implPackage)
    ensures GoLess(a, b) <==> Before(a, b)
  {
  }

  /** On two bare contracts of one package the comparator puts each before the other (a
      record even before itself), so the sort leaves their order open. */
  lemma ComparatorTie(a: RepositoryImpl, b: RepositoryImpl)
    requires Bare(a) && Bare(b) && a.implPackage == b.implPackage
    ensures GoLess(a, b) && GoLess(b, a) && NotAfter(a, b) && NotAfter(b, a)
  {
    LexLessIrreflexive(a.repo.ident);
  }

  lemma BeforeAsymmetric(a: RepositoryImpl, b: RepositoryImpl)
    requires Before(a, b)
    ensures NotAfter(a, b)
  {
    if a.implPackage == b.implPackage {
      if Bare(a) == Bare(b) {
        LexLessAsymmetric(a.repo.ident, b.repo.ident);
      }
    } else {
      LexLessAsymmetric(a.implPackage, b.implPackage);
    }
  }

  lemma NotAfterTotal(a: RepositoryImpl, b: RepositoryImpl)
    ensures NotAfter(a, b) || NotAfter(b, a)
  {
    if Before(a, b) {
      BeforeAsymmetric(a, b);
    }
  }

  lemma NotAfterTransitive(a: RepositoryImpl, b: RepositoryImpl, c: RepositoryImpl)
    requires NotAfter(a, b) && NotAfter(b, c)
    ensures NotAfter(a, c)
  {
    var p, q, s := a.implPackage, b.implPackage, c.implPackage;
    LexLessIrreflexive(p);
    LexLessIrreflexive(q);
    LexNotAbove(p, q, s);
    LexLessTotal(p, q);
    LexLessTotal(q, s);
    if p == q && q == s && !Bare(a) && !Bare(b) && !Bare(c) {
      LexNotAbove(a.repo.ident, b.repo.ident, c.repo.ident);
    }
  }

  /** Sorted by the comparator's order; records it leaves unordered may come either way. */
  predicate Sorted(rs: seq<RepositoryImpl>) {
    forall i, j :: 0 <= i < j < |rs| ==> NotAfter(rs[i], rs[j])
  }

  /** Exchanges two neighbours. */
  method Swap(a: array<RepositoryImpl>, j: nat)
    requires 0 < j < a.Length
    modifies a
    ensures a[..] == old(a[..])[j - 1 := old(a[j])][j := old(a[j - 1])]
    ensures multiset(a[..]) == multiset(old(a[..]))
  {
    a[j - 1], a[j] := a[j], a[j - 1];
  }

  /** Insertion of `s[i]` in progress: it has reached `j`, it comes before no record it has
      passed, and the other records of `s[..i + 1]` are in order. */
  predicate Sinking(s: seq<RepositoryImpl>, j: nat, i: nat) {
    j <= i < |s|
    && (forall k, l :: 0 <= k < l <= i && k != j && l != j ==> NotAfter(s[k], s[l]))
    && (forall l :: j < l <= i ==> NotAfter(s[j], s[l]))
  }

  lemma SinkingStep(s: seq<RepositoryImpl>, j: nat, i: nat)
    requires Sinking(s, j, i) && 0 < j && Before(s[j], s[j - 1])
    ensures Sinking(s[j - 1 := s[j]][j := s[j - 1]], j - 1, i)
  {
    BeforeAsymmetric(s[j], s[j - 1]);
  }

  lemma SinkingDone(s: seq<RepositoryImpl>, j: nat, i: nat)
    requires Sinking(s, j, i) && (j == 0 || !Before(s[j], s[j - 1]))
    ensures Sorted(s[..i + 1])
  {
    if j > 0 {
      forall k | 0 <= k < j - 1 {
        NotAfterTransitive(s[k], s[j - 1], s[j]);
      }
    }
  }

  /** Moves `a[i]` left past every record it comes before. */
  method Insert(a: array<RepositoryImpl>, i: nat)
    requires i < a.Length && Sorted(a[..i])
    modifies a
    ensures Sorted(a[..i + 1])
    ensures multiset(a[..]) == multiset(old(a[..]))
  {
    var j: nat := i;
    while j > 0 && Before(a[j], a[j - 1])
      invariant Sinking(a[..], j, i)
      invariant multiset(a[..]) == multiset(old(a[..]))
    {
      SinkingStep(a[..], j, i);
      Swap(a, j);
      j := j - 1;
    }
    SinkingDone(a[..], j, i);
  }

  /** The in-place sort, by insertion. */
  method SortRecords(a: array<RepositoryImpl>)
    modifies a
    ensures Sorted(a[..])
    ensures multiset(a[..]) == multiset(old(a[..]))
  {
    for i := 0 to a.Length
      invariant Sorted(a[..i])
      invariant multiset(a[..]) == multiset(old(a[..]))
    {
      Insert(a, i);
    }
    assert a[..] == a[..a.Length];
  }

  /** In sorted order the records of one implementation package stand together. */
  lemma SortedGrouped(rs: seq<RepositoryImpl>, i: nat, j: nat, k: nat)
    requires Sorted(rs) && i < j < k < |rs| && rs[i].implPackage == rs[k].implPackage
    ensures rs[j].implPackage == rs[i].implPackage
  {
    var p, q := rs[i].implPackage, rs[j].implPackage;
    assert NotAfter(rs[i], rs[j]) && NotAfter(rs[j], rs[k]);
    LexLessTotal(p, q);
  }

  /** In sorted order the bare `Repository` of a package comes before its other records. */
  lemma SortedBareFirst(rs: seq<RepositoryImpl>, i: nat, j: nat)
    requires Sorted(rs) && i < j < |rs| && rs[i].implPackage == rs[j].implPackage
    requires Bare(rs[j])
    ensures Bare(rs[i])
  {
    assert NotAfter(rs[i], rs[j]);
  }

  // The mock directives

  datatype Mock = Mock(src: string, dst: string)

  /** The directive a record asks for: its contract file, and a file of the same name in the
      `mocks` directory of its implementation package. */
  function MockOf(r: RepositoryImpl): Mock {
    Mock(Join(r.repo.packagePath, r.repo.filename),
      JoinAll([r.implPackagePath, "mocks", r.repo.filename]))
  }

  function RecordMocks(rs: seq<RepositoryImpl>): (ms: seq<Mock>)
    ensures |ms| == |rs|
  {
    seq(|rs|, i requires 0 <= i < |rs| => MockOf(rs[i]))
  }

  function Sources(ms: seq<Mock>): set<string> {
    set k | 0 <= k < |ms| :: ms[k].src
  }

  lemma SourcesSnoc(ms: seq<Mock>, m: Mock)
    ensures Sources(ms + [m]) == Sources(ms) + {m.src}
  {
    assert forall k :: 0 <= k < |ms| ==> (ms + [m])[k] == ms[k];
    assert (ms + [m])[|ms|] == m;
  }

  /** The first directive of every source, in order. */
  function Dedup(ms: seq<Mock>): seq<Mock>
    decreases |ms|
  {
    if ms == [] then []
    else
      var kept := Dedup(ms[..|ms| - 1]);
      if ms[|ms| - 1].src in Sources(kept) then kept else kept + [ms[|ms| - 1]]
  }

  /** The directives of the stub file. */
  function Directives(rs: seq<RepositoryImpl>): seq<Mock> {
    Dedup(RecordMocks(rs))
  }

  /** The loop over the sorted records that fills `mocked`. */
  method MockDirectives(rs: seq<RepositoryImpl>) returns (directives: seq<Mock>)
    ensures directives == Directives(rs)
  {
    ghost var all := RecordMocks(rs);
    var mocked: map<string, bool> := map[];
    directives := [];
    for i := 0 to |rs|
      invariant directives == Dedup(all[..i])
      invariant mocked.Keys == Sources(directives)
    {
      assert all[..i + 1][..i] == all[..i];
      var src := Join(rs[i].repo.packagePath, rs[i].repo.filename);
      if src in mocked {
        continue;
      }
      mocked := mocked[src := true];
      var dst := JoinAll([rs[i].implPackagePath, "mocks", rs[i].repo.filename]);
      SourcesSnoc(directives, Mock(src, dst));
      directives := directives + [Mock(src, dst)];
    }
    assert all[..|rs|] == all;
  }

  /** No two directives have the same source. */
  lemma {:induction false} DedupDistinct(ms: seq<Mock>)
    ensures forall k, l :: 0 <= k < l < |Dedup(ms)| ==> Dedup(ms)[k].src != Dedup(ms)[l].src
    decreases |ms|
  {
    if ms != [] {
      DedupDistinct(ms[..|ms| - 1]);
    }
  }

  /** Every source has its directive. */
  lemma {:induction false} DedupSources(ms: seq<Mock>)
    ensures Sources(Dedup(ms)) == Sources(ms)
    decreases |ms|
  {
    if ms != [] {
      var init := ms[..|ms| - 1];
      DedupSources(init);
      assert ms == init + [ms[|ms| - 1]];
      SourcesSnoc(init, ms[|ms| - 1]);
      SourcesSnoc(Dedup(init), ms[|ms| - 1]);
    }
  }

  /** Every directive is the first one of its source. */
  lemma {:induction false} DedupFirst(ms: seq<Mock>, k: nat)
    requires k < |Dedup(ms)|
    ensures exists i :: (0 <= i < |ms| && Dedup(ms)[k] == ms[i]
      && forall j :: 0 <= j < i ==> ms[j].src != ms[i].src)
    decreases |ms|
  {
    var init := ms[..|ms| - 1];
    var kept := Dedup(init);
    assert forall j :: 0 <= j < |init| ==> init[j] == ms[j];
    if k < |kept| {
      DedupFirst(init, k);
    } else {
      DedupSources(init);
      var i := |ms| - 1;
      assert Dedup(ms)[k] == ms[i];
      forall j | 0 <= j < i
        ensures ms[j].src != ms[i].src
      {
        assert init[j].src in Sources(init);
      }
    }
  }

  /** One directive per distinct contract file. */
  lemma DirectivesDistinct(rs: seq<RepositoryImpl>)
    ensures var ds := Directives(rs);
      forall k, l :: 0 <= k < l < |ds| ==> ds[k].src != ds[l].src
  {
    DedupDistinct(RecordMocks(rs));
  }

  /** Every record's contract file has its directive. */
  lemma DirectivesCover(rs: seq<RepositoryImpl>, i: nat)
    requires i < |rs|
    ensures MockOf(rs[i]).src in Sources(Directives(rs))
  {
    var ms := RecordMocks(rs);
    DedupSources(ms);
    assert ms[i].src in Sources(ms);
  }

  /** Every directive is the one of the first record with its contract file. */
  lemma DirectiveOfFirst(rs: seq<RepositoryImpl>, k: nat)
    requires k < |Directives(rs)|
    ensures exists i :: (0 <= i < |rs| && Directives(rs)[k] == MockOf(rs[i])
      && forall j :: 0 <= j < i ==> MockOf(rs[j]).src != MockOf(rs[i]).src)
  {
    var ms := RecordMocks(rs);
    DedupFirst(ms, k);
    var i :| 0 <= i < |ms| && Dedup(ms)[k] == ms[i]
      && forall j :: 0 <= j < i ==> ms[j].src != ms[i].src;
    assert forall j :: 0 <= j < i ==> ms[j] == MockOf(rs[j]);
  }

  // The stub file

  /** The entry of the `fx.Options` list for one record: the options variable its
      declaration block defines, in its implementation package. */
  function Entry(r: RepositoryImpl): string {
    r.implPackage + "." + OptionsVar(r.repo) + ",\n"
  }

  function Entries(rs: seq<RepositoryImpl>): string
    decreases |rs|
  {
    if rs == [] then "" else Entries(rs[..|rs| - 1]) + Entry(rs[|rs| - 1])
  }

  /** An entry names the options variable that the declarations of the record define. */
  lemma EntryDeclared(r: RepositoryImpl)
    ensures exists v :: (Entry(r) == r.implPackage + "." + v + ",\n"
      && "var " + v + " = fx.Options(" in DeclLines(r.repo) && HasSuffix(v, "Options"))
  {
    DeclWiring(r.repo);
    var v := OptionsVar(r.repo);
    assert Entry(r) == r.implPackage + "." + v + ",\n";
  }

  /** The package clause of the stub file: the alias `loadLocalPackage` picks for the
      package, or else the last element of its import path. */
  function StubPackage(modulePath: string, packagePath: string): (name: string)
    ensures var imp := LocalPackage(modulePath, None, packagePath);
      name == if imp.name != "" then imp.name else Base(imp.path)
    ensures '_' in Base(packagePath) && RemoveAll(Base(packagePath), '_') != "" ==>
      name == RemoveAll(Base(packagePath), '_')
  {
    var imp := LocalPackage(modulePath, None, packagePath);
    if imp.name != "" then imp.name else Base(imp.path)
  }

  function DirectiveLine(m: Mock): string {
    "//go:generate mockgen -source=" + m.src + " -destination=" + m.dst + "\n"
  }

  function DirectiveLines(ms: seq<Mock>): string
    decreases |ms|
  {
    if ms == [] then "" else DirectiveLines(ms[..|ms| - 1]) + DirectiveLine(ms[|ms| - 1])
  }

  /** An import of `repositoryStubFileTemplate`: a line break, then the clause, with the
      alias even when it is empty. */
  function ImportClause(imp: Import): string {
    "\nimport " + imp.name + " \"" + imp.path + "\""
  }

  function ImportClauses(imps: seq<Import>): string
    decreases |imps|
  {
    if imps == [] then "" else ImportClauses(imps[..|imps| - 1]) + ImportClause(imps[|imps| - 1])
  }

  const StubNotice := "\n// DO NOT MODIFY\n// This file will be automatically regenerated based on the API.\n"

  /** `repositoryStubFileTemplate` with its data; the trim markers remove the line breaks
      around the directive and entry lists. */
  function StubText(pkg: string, mocks: seq<Mock>, imports: seq<Import>,
    rs: seq<RepositoryImpl>): string
  {
    StubNotice + "package " + pkg + "\n" + DirectiveLines(mocks) + ImportClauses(imports)
    + "\n\nvar Repositories = fx.Options(\n" + Entries(rs) + ")\n"
  }

  /** The imports of the stub file: `collectImports` with the implementation packages and
      no file. */
  function StubImports(modulePath: string, rs: seq<RepositoryImpl>): seq<Import>
    requires Computable(rs)
  {
    Unused(Requested(modulePath, None, false, rs), {})
  }

  /** Without a file nothing is dropped: the stub file imports every requested package. */
  lemma {:induction false} NothingUnused(imps: seq<Import>)
    ensures Unused(imps, {}) == imps
    decreases |imps|
  {
    if imps != [] {
      NothingUnused(imps[..|imps| - 1]);
      assert imps == imps[..|imps| - 1] + [imps[|imps| - 1]];
    }
  }

  /** The stub file imports every requested package, fx first. */
  lemma StubImportsRequested(modulePath: string, rs: seq<RepositoryImpl>)
    requires Computable(rs)
    ensures StubImports(modulePath, rs) == Requested(modulePath, None, false, rs)
    ensures StubImports(modulePath, rs)[0] == FxImport
  {
    NothingUnused(Requested(modulePath, None, false, rs));
  }

  /** The stub file of the records `rs`, once they are sorted, or the panic of
      `NewMethods` on an empty type. */
  function StubFile(modulePath: string, packagePath: string, rs: seq<RepositoryImpl>)
    : Result<string>
  {
    if !Computable(rs) then Err(Panic(IndexPanic))
    else Ok(StubText(StubPackage(modulePath, packagePath), Directives(rs),
      StubImports(modulePath, rs), rs))
  }

  /** Reordering the records keeps them computable, or not. */
  lemma ComputablePermuted(a: seq<RepositoryImpl>, b: seq<RepositoryImpl>)
    requires multiset(a) == multiset(b)
    ensures Computable(a) <==> Computable(b)
  {
    if Computable(a) {
      forall i | 0 <= i < |b|
        ensures AllTyped(Missing(b[i].repo.methods, b[i].implMethods))
      {
        assert b[i] in multiset(a);
        var j :| 0 <= j < |a| && a[j] == b[i];
      }
    }
    if Computable(b) {
      forall i | 0 <= i < |a|
        ensures AllTyped(Missing(a[i].repo.methods, a[i].implMethods))
      {
        assert a[i] in multiset(b);
        var j :| 0 <= j < |b| && b[j] == a[i];
      }
    }
  }

  /** The sorted records panic exactly when the given ones have a missing method with an
      empty type. */
  lemma PermutedFails(a: seq<RepositoryImpl>, b: seq<RepositoryImpl>)
    requires multiset(a) == multiset(b)
    ensures !Computable(b) <==> SomeUntyped(a)
  {
    ComputablePermuted(a, b);
    UncomputableWhen(a);
  }

  /** `generateRepositoryStubFile` up to the formatting of its result: the records are
      sorted in place, then every part of the file is computed from the sorted records. It
      panics when a record's contract has a missing method with an empty type. */
  method GenerateStubFile(modulePath: string, packagePath: string, rs: array<RepositoryImpl>)
    returns (r: Result<string>)
    modifies rs
    ensures Sorted(rs[..]) && multiset(rs[..]) == multiset(old(rs[..]))
    ensures r == StubFile(modulePath, packagePath, rs[..])
    ensures r.Err? <==> SomeUntyped(old(rs[..]))
  {
    ghost var before := rs[..];
    SortRecords(rs);
    ghost var sorted := rs[..];
    PermutedFails(before, sorted);
    var mocks := MockDirectives(rs[..]);
    var importPath, alias := LoadLocalPackage(modulePath, None, packagePath);
    var pkg := if alias != "" then alias else Base(importPath);
    var imports := CollectImports(modulePath, None, false, true, rs);
    NoFileNoRelabel(modulePath, false, sorted);
    if imports.Err? {
      return Err(imports.error);
    }
    return Ok(StubText(pkg, mocks, imports.value, rs[..]));
  }
}
