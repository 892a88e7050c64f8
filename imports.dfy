/** Import paths and aliases of local packages (`loadLocalPackage`, with the module path given)
    and the import list of a generated file (`collectImports`). The imports a Go file already
    has are given as their aliases and unquoted paths. */
module Imports {
  import opened GoStrings
  import opened GoPath
  import opened Types
  import opened Naming
  import opened Signature

  // loadLocalPackage

  /** The alias of the first import of `p` in `imps`, empty when that import has none. */
  function ExistingAlias(imps: seq<Import>, p: string): (a: Option<string>)
    ensures a.Some? <==> exists i :: 0 <= i < |imps| && imps[i].path == p
    ensures a.Some? ==>
      exists i :: (0 <= i < |imps| && imps[i].path == p && imps[i].name == a.value
        && forall j :: 0 <= j < i ==> imps[j].path != p)
    decreases |imps|
  {
    if imps == [] then None
    else if imps[0].path == p then Some(imps[0].name)
    else
      var a := ExistingAlias(imps[1..], p);
      assert forall i :: 1 <= i < |imps| ==> imps[i] == imps[1..][i - 1];
      a
  }

  /** The alias of a package that the file does not import yet: the base name of its
      directory with the underscores removed, or none when there is no underscore. */
  function DefaultAlias(packagePath: string): (a: string)
    ensures '_' !in a
    ensures '_' !in Base(packagePath) ==> a == ""
    ensures '_' in Base(packagePath) ==> a == RemoveAll(Base(packagePath), '_')
  {
    var base := Base(packagePath);
    var alias := RemoveAll(base, '_');
    if base == alias then "" else alias
  }

  /** `loadLocalPackage`: the import path is the package path under the module; the alias
      is the one the file already uses for that path, or else the default alias. */
  function LocalPackage(modulePath: string, ast: Option<seq<Import>>, packagePath: string)
    : Import
  {
    var path := Join(modulePath, packagePath);
    if ast.Some? && ExistingAlias(ast.value, path).Some? then
      Import(ExistingAlias(ast.value, path).value, path)
    else
      Import(DefaultAlias(packagePath), path)
  }

  /** The search of `loadLocalPackage` through the imports of the file. */
  method LoadLocalPackage(modulePath: string, ast: Option<seq<Import>>, packagePath: string)
    returns (importPath: string, importAlias: string)
    ensures Import(importAlias, importPath) == LocalPackage(modulePath, ast, packagePath)
  {
    importPath := Join(modulePath, packagePath);
    if ast.Some? {
      var imps := ast.value;
      var i := 0;
      while i < |imps|
        invariant 0 <= i <= |imps|
        invariant ExistingAlias(imps[i..], importPath) == ExistingAlias(imps, importPath)
      {
        if imps[i].path == importPath {
          importAlias := imps[i].name;
          return;
        }
        assert imps[i..][1..] == imps[i + 1..];
        i := i + 1;
      }
    }
    var base := Base(packagePath);
    importAlias := RemoveAll(base, '_');
    if base == importAlias {
      importAlias := "";
    }
  }

  /** An import the file already has decides the alias, whatever the directory is called. */
  lemma AliasFromFile(modulePath: string, imps: seq<Import>, packagePath: string, i: nat)
    requires i < |imps| && imps[i].path == Join(modulePath, packagePath)
    requires forall j :: 0 <= j < i ==> imps[j].path != imps[i].path
    ensures LocalPackage(modulePath, Some(imps), packagePath)
      == Import(imps[i].name, Join(modulePath, packagePath))
  {
    assert ExistingAlias(imps, imps[i].path).Some?;
  }

  /** Without an import of the package the alias is the default one. */
  lemma AliasByDefault(modulePath: string, ast: Option<seq<Import>>, packagePath: string)
    requires ast.Some? ==>
      forall j :: 0 <= j < |ast.value| ==> ast.value[j].path != Join(modulePath, packagePath)
    ensures LocalPackage(modulePath, ast, packagePath)
      == Import(DefaultAlias(packagePath), Join(modulePath, packagePath))
  {
  }

  // collectImports

  const FxImport := Import("", "go.uber.org/fx")
  const ContextImport := Import("", "context")
  const OtelImport := Import("", "go.opentelemetry.io/otel")
  const CodesImport := Import("", "go.opentelemetry.io/otel/codes")
  const ErisImport := Import("", "github.com/rotisserie/eris")

  /** The imports one new method needs: the tracing packages for a context parameter, eris
      for an error result. */
  function MethodImports(m: Method): seq<Import> {
    (if HasCtx(m.params) then [ContextImport, OtelImport, CodesImport] else [])
    + (if HasError(m.results) then [ErisImport] else [])
  }

  function MethodsImports(ms: seq<Method>): seq<Import>
    decreases |ms|
  {
    if ms == [] then [] else MethodsImports(ms[..|ms| - 1]) + MethodImports(ms[|ms| - 1])
  }

  /** The number of methods with a context parameter, and with an error result. */
  function CtxCount(ms: seq<Method>): nat
    decreases |ms|
  {
    if ms == [] then 0 else CtxCount(ms[..|ms| - 1]) + (if HasCtx(ms[|ms| - 1].params) then 1 else 0)
  }

  function ErrCount(ms: seq<Method>): nat
    decreases |ms|
  {
    if ms == [] then 0
    else ErrCount(ms[..|ms| - 1]) + (if HasError(ms[|ms| - 1].results) then 1 else 0)
  }

  /** The imports new methods need are four different ones. */
  lemma ImportsDistinct()
    ensures ContextImport != OtelImport && ContextImport != CodesImport
    ensures ContextImport != ErisImport && OtelImport != CodesImport
    ensures OtelImport != ErisImport && CodesImport != ErisImport
  {
    assert |ContextImport.path| == 7 && |OtelImport.path| == 24;
    assert |CodesImport.path| == 30 && |ErisImport.path| == 26;
  }

  /** How often one method requests each of the four imports. */
  lemma MethodImportCounts(m: Method)
    ensures multiset(MethodImports(m))[ContextImport] == (if HasCtx(m.params) then 1 else 0)
    ensures multiset(MethodImports(m))[OtelImport] == (if HasCtx(m.params) then 1 else 0)
    ensures multiset(MethodImports(m))[CodesImport] == (if HasCtx(m.params) then 1 else 0)
    ensures multiset(MethodImports(m))[ErisImport] == (if HasError(m.results) then 1 else 0)
  {
    ImportsDistinct();
    var t: seq<Import> := if HasCtx(m.params) then [ContextImport, OtelImport, CodesImport] else [];
    var e: seq<Import> := if HasError(m.results) then [ErisImport] else [];
    assert MethodImports(m) == t + e;
    assert multiset(t + e) == multiset(t) + multiset(e);
  }

  /** Nothing is deduplicated: `context` and the two otel packages are requested once per
      method with a context parameter. */
  lemma {:induction false} TracingImportsCounted(ms: seq<Method>)
    ensures multiset(MethodsImports(ms))[ContextImport] == CtxCount(ms)
    ensures multiset(MethodsImports(ms))[OtelImport] == CtxCount(ms)
    ensures multiset(MethodsImports(ms))[CodesImport] == CtxCount(ms)
    decreases |ms|
  {
    if ms != [] {
      var init, m := ms[..|ms| - 1], ms[|ms| - 1];
      TracingImportsCounted(init);
      MethodImportCounts(m);
      assert multiset(MethodsImports(ms)) == multiset(MethodsImports(init)) + multiset(MethodImports(m));
    }
  }

  /** Eris is requested once per method with an error result. */
  lemma {:induction false} ErisImportsCounted(ms: seq<Method>)
    ensures multiset(MethodsImports(ms))[ErisImport] == ErrCount(ms)
    decreases |ms|
  {
    if ms != [] {
      var init, m := ms[..|ms| - 1], ms[|ms| - 1];
      ErisImportsCounted(init);
      MethodImportCounts(m);
      assert multiset(MethodsImports(ms)) == multiset(MethodsImports(init)) + multiset(MethodImports(m));
    }
  }

  /** The package path a record's local import is for: the contract package when the API is
      imported, the implementation package otherwise. */
  function LocalPath(r: RepositoryImpl, importAPI: bool): string {
    if importAPI then r.repo.packagePath else r.implPackagePath
  }

  /** A record after `collectImports`: when there is a file, the alias of the record's local
      import (the file's own alias for the package, or else the default alias) becomes the
      record's package (or implementation package) name; an empty alias changes nothing. */
  function Relabel(r: RepositoryImpl, alias: string, importAPI: bool, inFile: bool)
    : (r': RepositoryImpl)
    ensures r'.repo.methods == r.repo.methods && r'.implMethods == r.implMethods
    ensures r'.repo.imports == r.repo.imports
    ensures r'.repo.(pkg := r.repo.pkg) == r.repo
    ensures r'.(repo := r.repo, implPackage := r.implPackage) == r
    ensures !inFile || alias == "" ==> r' == r
    ensures inFile && alias != "" && importAPI ==> r'.repo.pkg == alias && r'.implPackage == r.implPackage
    ensures inFile && alias != "" && !importAPI ==> r'.implPackage == alias && r'.repo == r.repo
  {
    if inFile && alias != "" then
      if importAPI then r.(repo := r.repo.(pkg := alias)) else r.(implPackage := alias)
    else r
  }

  function LocalImport(modulePath: string, ast: Option<seq<Import>>, importAPI: bool,
    r: RepositoryImpl): Import
  {
    LocalPackage(modulePath, ast, LocalPath(r, importAPI))
  }

  function LocalImports(modulePath: string, ast: Option<seq<Import>>, importAPI: bool,
    rs: seq<RepositoryImpl>): (imps: seq<Import>)
    ensures |imps| == |rs|
    decreases |rs|
  {
    if rs == [] then []
    else (LocalImports(modulePath, ast, importAPI, rs[..|rs| - 1])
      + [LocalImport(modulePath, ast, importAPI, rs[|rs| - 1])])
  }

  lemma {:induction false} LocalImportsAt(modulePath: string, ast: Option<seq<Import>>,
    importAPI: bool, rs: seq<RepositoryImpl>, k: nat)
    requires k < |rs|
    ensures LocalImports(modulePath, ast, importAPI, rs)[k] == LocalImport(modulePath, ast, importAPI, rs[k])
    decreases |rs|
  {
    if k < |rs| - 1 {
      LocalImportsAt(modulePath, ast, importAPI, rs[..|rs| - 1], k);
    }
  }

  /** The records relabelled with the aliases of their local imports. */
  function RelabeledBy(rs: seq<RepositoryImpl>, locals: seq<Import>, importAPI: bool,
    inFile: bool): (rs': seq<RepositoryImpl>)
    requires |locals| == |rs|
    ensures |rs'| == |rs|
  {
    seq(|rs|, i requires 0 <= i < |rs| => Relabel(rs[i], locals[i].name, importAPI, inFile))
  }

  function Relabeled(modulePath: string, ast: Option<seq<Import>>, importAPI: bool,
    rs: seq<RepositoryImpl>): (rs': seq<RepositoryImpl>)
    ensures |rs'| == |rs|
  {
    RelabeledBy(rs, LocalImports(modulePath, ast, importAPI, rs), importAPI, ast.Some?)
  }

  /** Every record's new methods can be computed (no empty type among them). */
  predicate Computable(rs: seq<RepositoryImpl>) {
    forall i :: 0 <= i < |rs| ==> AllTyped(Missing(rs[i].repo.methods, rs[i].implMethods))
  }

  /** What a record adds: its contract file's imports, then the imports of its new methods. */
  function RecordImports(r: RepositoryImpl): seq<Import>
    requires AllTyped(Missing(r.repo.methods, r.implMethods))
  {
    r.repo.imports + MethodsImports(NewMethodsSpec(r))
  }

  function RecordsImports(rs: seq<RepositoryImpl>): seq<Import>
    requires Computable(rs)
    decreases |rs|
  {
    if rs == [] then []
    else RecordsImports(rs[..|rs| - 1]) + RecordImports(rs[|rs| - 1])
  }

  /** Every import `collectImports` considers, in its order: fx, the local packages of the
      records, then what the records add, after their relabelling. */
  function Requested(modulePath: string, ast: Option<seq<Import>>, importAPI: bool,
    rs: seq<RepositoryImpl>): seq<Import>
    requires Computable(rs)
  {
    [FxImport] + LocalImports(modulePath, ast, importAPI, rs)
    + RecordsImports(Relabeled(modulePath, ast, importAPI, rs))
  }

  /** The paths the file already imports. */
  function Used(ast: Option<seq<Import>>): set<string> {
    if ast.None? then {} else set i | 0 <= i < |ast.value| :: ast.value[i].path
  }

  /** The imports whose path is not used yet, in order; duplicates stay. */
  function Unused(imps: seq<Import>, used: set<string>): (r: seq<Import>)
    ensures forall x :: x in r ==> x.path !in used
    ensures forall x: Import :: x.path !in used ==> multiset(r)[x] == multiset(imps)[x]
    decreases |imps|
  {
    if imps == [] then []
    else
      var init := Unused(imps[..|imps| - 1], used);
      var last := imps[|imps| - 1];
      assert imps == imps[..|imps| - 1] + [last];
      if last.path in used then init else init + [last]
  }

  /** Relabelling keeps every record's methods, so it keeps them computable. */
  lemma RelabeledComputable(modulePath: string, ast: Option<seq<Import>>, importAPI: bool,
    rs: seq<RepositoryImpl>)
    ensures Computable(Relabeled(modulePath, ast, importAPI, rs)) <==> Computable(rs)
  {
    var rs' := Relabeled(modulePath, ast, importAPI, rs);
    assert forall k :: 0 <= k < |rs| ==>
      rs'[k].repo.methods == rs[k].repo.methods && rs'[k].implMethods == rs[k].implMethods;
  }

  /** `collectImports`: the error for asking for both imports, the panic of `NewMethods`
      on an empty type, or the imports the file lacks. */
  function CollectSpec(modulePath: string, ast: Option<seq<Import>>, importAPI: bool,
    importImpl: bool, rs: seq<RepositoryImpl>): Result<seq<Import>>
  {
    if importAPI && importImpl then Err(BothImports)
    else if !Computable(rs) then Err(Panic(IndexPanic))
    else Ok(Unused(Requested(modulePath, ast, importAPI, rs), Used(ast)))
  }

  /** Some record's contract has a method its implementation lacks with a parameter or a
      result without a type. */
  predicate SomeUntyped(rs: seq<RepositoryImpl>) {
    exists k, m :: 0 <= k < |rs| && m in rs[k].repo.methods && m.ident !in rs[k].implMethods
      && !(Typed(m.params) && Typed(m.results))
  }

  /** The records are computable exactly when no missing method has an empty type. */
  lemma UncomputableWhen(rs: seq<RepositoryImpl>)
    ensures !Computable(rs) <==> SomeUntyped(rs)
  {
    forall k | 0 <= k < |rs| {
      NewMethodsPanics(rs[k]);
    }
  }

  /** `collectImports` fails exactly when both imports are asked for, or when `NewMethods`
      panics on some record. */
  lemma CollectFails(modulePath: string, ast: Option<seq<Import>>, importAPI: bool,
    importImpl: bool, rs: seq<RepositoryImpl>)
    ensures CollectSpec(modulePath, ast, importAPI, importImpl, rs).Err? <==>
      (importAPI && importImpl) || SomeUntyped(rs)
    ensures !(importAPI && importImpl) && SomeUntyped(rs) ==>
      CollectSpec(modulePath, ast, importAPI, importImpl, rs) == Err(Panic(IndexPanic))
  {
    UncomputableWhen(rs);
  }

  method UsedPaths(ast: Option<seq<Import>>) returns (used: set<string>)
    ensures used == Used(ast)
  {
    used := {};
    if ast.Some? {
      var imps := ast.value;
      for i := 0 to |imps|
        invariant used == set j | 0 <= j < i :: imps[j].path
      {
        used := used + {imps[i].path};
      }
    }
  }

  method AppendMethodImports(all: seq<Import>, ms: seq<Method>) returns (all': seq<Import>)
    ensures all' == all + MethodsImports(ms)
  {
    all' := all;
    for i := 0 to |ms|
      invariant all' == all + MethodsImports(ms[..i])
    {
      assert ms[..i + 1][..i] == ms[..i];
      if HasCtx(ms[i].params) {
        all' := all' + [ContextImport, OtelImport, CodesImport];
      }
      if HasError(ms[i].results) {
        all' := all' + [ErisImport];
      }
    }
    assert ms[..|ms|] == ms;
  }

  method DropUsed(all: seq<Import>, used: set<string>) returns (imports: seq<Import>)
    ensures imports == Unused(all, used)
  {
    imports := [];
    for i := 0 to |all|
      invariant imports == Unused(all[..i], used)
    {
      assert all[..i + 1][..i] == all[..i];
      if all[i].path !in used {
        imports := imports + [all[i]];
      }
    }
    assert all[..|all|] == all;
  }

  /** One record of the first loop of `collectImports`: its local package is looked up, and
      it is relabelled with the alias the file already uses for it. */
  method RelabelOne(modulePath: string, ast: Option<seq<Import>>, importAPI: bool,
    repo: RepositoryImpl) returns (repo': RepositoryImpl, imp: Import)
    ensures imp == LocalImport(modulePath, ast, importAPI, repo)
    ensures repo' == Relabel(repo, imp.name, importAPI, ast.Some?)
  {
    var path, alias := LoadLocalPackage(modulePath, ast, LocalPath(repo, importAPI));
    imp := Import(alias, path);
    repo' := repo;
    if ast.Some? && alias != "" {
      if importAPI {
        repo' := repo.(repo := repo.repo.(pkg := alias));
      } else {
        repo' := repo.(implPackage := alias);
      }
    }
  }

  /** The records before `i` are relabelled with the aliases in `locals`; the others are as
      they were. */
  ghost predicate RelabeledPrefix(rs: seq<RepositoryImpl>, rs0: seq<RepositoryImpl>,
    locals: seq<Import>, importAPI: bool, inFile: bool, i: nat)
  {
    |rs| == |rs0| && i <= |rs| && |locals| == i
    && (forall j :: 0 <= j < i ==> rs[j] == Relabel(rs0[j], locals[j].name, importAPI, inFile))
    && (forall j :: i <= j < |rs| ==> rs[j] == rs0[j])
  }

  /** The state of the first loop of `collectImports` before record `i`: the records before
      it are relabelled, and `locals` are their local imports. */
  ghost predicate RelabeledUpTo(modulePath: string, ast: Option<seq<Import>>, importAPI: bool,
    rs: seq<RepositoryImpl>, rs0: seq<RepositoryImpl>, locals: seq<Import>, i: nat)
  {
    RelabeledPrefix(rs, rs0, locals, importAPI, ast.Some?, i)
    && locals == LocalImports(modulePath, ast, importAPI, rs0[..i])
  }

  lemma LocalImportsGrow(modulePath: string, ast: Option<seq<Import>>, importAPI: bool,
    rs: seq<RepositoryImpl>, i: nat)
    requires i < |rs|
    ensures LocalImports(modulePath, ast, importAPI, rs[..i + 1])
      == LocalImports(modulePath, ast, importAPI, rs[..i]) + [LocalImport(modulePath, ast, importAPI, rs[i])]
  {
    assert rs[..i + 1][..i] == rs[..i];
  }

  lemma RelabeledStep(rs: seq<RepositoryImpl>, rs0: seq<RepositoryImpl>, locals: seq<Import>,
    importAPI: bool, inFile: bool, i: nat, repo: RepositoryImpl, imp: Import)
    requires i < |rs| && RelabeledPrefix(rs, rs0, locals, importAPI, inFile, i)
    requires repo == Relabel(rs0[i], imp.name, importAPI, inFile)
    ensures RelabeledPrefix(rs[i := repo], rs0, locals + [imp], importAPI, inFile, i + 1)
  {
    var rs', locals' := rs[i := repo], locals + [imp];
    forall j | 0 <= j < i + 1
      ensures rs'[j] == Relabel(rs0[j], locals'[j].name, importAPI, inFile)
    {
      if j < i {
        assert rs'[j] == rs[j] && locals'[j] == locals[j];
      }
    }
    forall j | i + 1 <= j < |rs'| ensures rs'[j] == rs0[j] {
      assert rs'[j] == rs[j];
    }
  }

  /** One pass of the first loop of `collectImports`. */
  method RelabelNext(modulePath: string, ast: Option<seq<Import>>, importAPI: bool,
    rs: array<RepositoryImpl>, ghost rs0: seq<RepositoryImpl>, locals: seq<Import>, i: nat)
    returns (locals': seq<Import>)
    requires i < rs.Length
    requires RelabeledUpTo(modulePath, ast, importAPI, rs[..], rs0, locals, i)
    modifies rs
    ensures RelabeledUpTo(modulePath, ast, importAPI, rs[..], rs0, locals', i + 1)
  {
    ghost var before := rs[..];
    assert before[i] == rs0[i];
    var repo, imp := RelabelOne(modulePath, ast, importAPI, rs[i]);
    rs[i] := repo;
    locals' := locals + [imp];
    assert rs[..] == before[i := repo];
    RelabeledStep(before, rs0, locals, importAPI, ast.Some?, i, repo, imp);
    LocalImportsGrow(modulePath, ast, importAPI, rs0, i);
  }

  /** The first loop of `collectImports`, over every record in place. */
  method RelabelAll(modulePath: string, ast: Option<seq<Import>>, importAPI: bool,
    rs: array<RepositoryImpl>) returns (locals: seq<Import>)
    modifies rs
    ensures locals == LocalImports(modulePath, ast, importAPI, old(rs[..]))
    ensures rs[..] == RelabeledBy(old(rs[..]), locals, importAPI, ast.Some?)
  {
    ghost var rs0 := rs[..];
    locals := [];
    for i := 0 to rs.Length
      invariant RelabeledUpTo(modulePath, ast, importAPI, rs[..], rs0, locals, i)
    {
      locals := RelabelNext(modulePath, ast, importAPI, rs, rs0, locals, i);
    }
    assert rs0[..rs.Length] == rs0;
  }

  lemma Regroup(a: seq<Import>, b: seq<Import>, c: seq<Import>, d: seq<Import>)
    ensures a + b + c + d == a + (b + c + d)
  {
  }

  lemma RecordsImportsStep(rs: seq<RepositoryImpl>, i: nat)
    requires i < |rs| && Computable(rs[..i]) && AllTyped(Missing(rs[i].repo.methods, rs[i].implMethods))
    ensures Computable(rs[..i + 1])
    ensures RecordsImports(rs[..i + 1])
      == RecordsImports(rs[..i]) + rs[i].repo.imports + MethodsImports(NewMethodsSpec(rs[i]))
  {
    assert rs[..i + 1][..i] == rs[..i];
  }

  /** The second loop of `collectImports`: what each record adds, in record order, unless
      `NewMethods` panics on one of them. */
  method AppendRecordImports(all: seq<Import>, rs: seq<RepositoryImpl>)
    returns (all': Result<seq<Import>>)
    ensures all'.Ok? <==> Computable(rs)
    ensures all'.Ok? ==> all'.value == all + RecordsImports(rs)
    ensures all'.Err? ==> all'.error == Panic(IndexPanic)
  {
    var acc := all;
    for i := 0 to |rs|
      invariant Computable(rs[..i])
      invariant acc == all + RecordsImports(rs[..i])
    {
      acc := acc + rs[i].repo.imports;
      var ms := NewMethods(rs[i]);
      if ms.Err? {
        assert !AllTyped(Missing(rs[i].repo.methods, rs[i].implMethods));
        return Err(ms.error);
      }
      RecordsImportsStep(rs, i);
      acc := AppendMethodImports(acc, ms.value);
      Regroup(all, RecordsImports(rs[..i]), rs[i].repo.imports, MethodsImports(ms.value));
    }
    assert rs[..|rs|] == rs;
    return Ok(acc);
  }

  /** `collectImports`: when there is a file, every record is relabelled in place with the
      alias of its local import (the file's own alias for the package, or else the default
      alias, when not empty), and the imports the file lacks are returned. */
  method CollectImports(modulePath: string, ast: Option<seq<Import>>, importAPI: bool,
    importImpl: bool, rs: array<RepositoryImpl>) returns (r: Result<seq<Import>>)
    modifies rs
    ensures importAPI && importImpl ==> rs[..] == old(rs[..])
    ensures !(importAPI && importImpl) ==>
      rs[..] == Relabeled(modulePath, ast, importAPI, old(rs[..]))
    ensures r == CollectSpec(modulePath, ast, importAPI, importImpl, old(rs[..]))
  {
    var used := UsedPaths(ast);
    var all := [FxImport];
    if importAPI && importImpl {
      return Err(BothImports);
    }
    var locals := RelabelAll(modulePath, ast, importAPI, rs);
    RelabeledComputable(modulePath, ast, importAPI, old(rs[..]));
    var added := AppendRecordImports(all + locals, rs[..]);
    if added.Err? {
      return Err(added.error);
    }
    var imports := DropUsed(added.value, used);
    return Ok(imports);
  }

  // What the caller sees

  /** fx is always requested, and kept unless the file imports it already. */
  lemma AlwaysFx(modulePath: string, ast: Option<seq<Import>>, importAPI: bool,
    rs: seq<RepositoryImpl>)
    requires Computable(rs)
    requires FxImport.path !in Used(ast)
    ensures FxImport in Unused(Requested(modulePath, ast, importAPI, rs), Used(ast))
  {
    var req := Requested(modulePath, ast, importAPI, rs);
    assert req[0] == FxImport;
    assert multiset(req)[FxImport] > 0;
  }

  /** No import the file already has is returned again. */
  lemma NoneUsed(modulePath: string, ast: Option<seq<Import>>, importAPI: bool,
    importImpl: bool, rs: seq<RepositoryImpl>, i: nat)
    requires CollectSpec(modulePath, ast, importAPI, importImpl, rs).Ok?
    requires ast.Some? && i < |ast.value|
    ensures var imports := CollectSpec(modulePath, ast, importAPI, importImpl, rs).value;
      forall x :: x in imports ==> x.path != ast.value[i].path
  {
    assert ast.value[i].path in Used(ast);
  }

  /** An alias the file already uses for a record's package renames the record. */
  lemma RelabelledFromFile(modulePath: string, imps: seq<Import>, importAPI: bool,
    rs: seq<RepositoryImpl>, k: nat, i: nat)
    requires k < |rs| && i < |imps| && imps[i].name != ""
    requires imps[i].path == Join(modulePath, LocalPath(rs[k], importAPI))
    requires forall j :: 0 <= j < i ==> imps[j].path != imps[i].path
    ensures var r := Relabeled(modulePath, Some(imps), importAPI, rs)[k];
      if importAPI then r.repo.pkg == imps[i].name else r.implPackage == imps[i].name
  {
    AliasFromFile(modulePath, imps, LocalPath(rs[k], importAPI), i);
    LocalImportsAt(modulePath, Some(imps), importAPI, rs, k);
  }

  /** A record whose package the file does not import takes the default alias, when it is not
      empty, as its package or implementation package name. */
  lemma RelabelledByDefault(modulePath: string, imps: seq<Import>, importAPI: bool,
    rs: seq<RepositoryImpl>, k: nat)
    requires k < |rs| && DefaultAlias(LocalPath(rs[k], importAPI)) != ""
    requires forall j :: 0 <= j < |imps| ==> imps[j].path != Join(modulePath, LocalPath(rs[k], importAPI))
    ensures var r, a := Relabeled(modulePath, Some(imps), importAPI, rs)[k], DefaultAlias(LocalPath(rs[k], importAPI));
      if importAPI then r.repo.pkg == a else r.implPackage == a
  {
    AliasByDefault(modulePath, Some(imps), LocalPath(rs[k], importAPI));
    LocalImportsAt(modulePath, Some(imps), importAPI, rs, k);
  }

  /** Without the file nothing is relabelled. */
  lemma NoFileNoRelabel(modulePath: string, importAPI: bool, rs: seq<RepositoryImpl>)
    ensures Relabeled(modulePath, None, importAPI, rs) == rs
  {
  }
}
