/** `generateRepositoryImplsForFile`: the text of one implementation file before it is
    formatted. The file keeps its own lines; the new imports go right after its `package`
    clause, and new declarations and method stubs are appended at the end. */
module FileMerge {
  import opened GoStrings
  import opened Types
  import opened Signature
  import opened Templates
  import opened Imports

  /** The implementation file as the generator finds it: absent, failing to open, read or
      parse, or present as its lines together with the imports its parse reports. */
  datatype SourceFile =
    | Absent
    | Unreadable(message: string)
    | Present(lines: seq<string>, imports: seq<Import>)

  /** The imports of the file, when there is one. */
  function Ast(file: SourceFile): Option<seq<Import>> {
    if file.Present? then Some(file.imports) else None
  }

  predicate PackageClause(line: string) {
    HasPrefix(line, "package")
  }

  /** The number of lines up to and including the first `package` clause, or all of them. */
  function HeadLength(lines: seq<string>): (h: nat)
    ensures h <= |lines|
    ensures forall j :: 0 <= j < h - 1 ==> !PackageClause(lines[j])
    ensures (exists j :: 0 <= j < |lines| && PackageClause(lines[j])) ==>
      (0 < h && PackageClause(lines[h - 1]))
    ensures (forall j :: 0 <= j < |lines| ==> !PackageClause(lines[j])) ==> h == |lines|
    decreases |lines|
  {
    if lines == [] then 0
    else if PackageClause(lines[0]) then 1
    else
      var h := 1 + HeadLength(lines[1..]);
      assert forall j :: 1 <= j < |lines| ==> lines[j] == lines[1..][j - 1];
      h
  }

  const HeaderNote1 :=
    "// This file will be automatically regenerated based on the API. Any repository implementations"
  const HeaderNote2 :=
    "// will be copied through when generating and new methods will be added to the end."

  /** The beginning of a file that does not exist yet. */
  function NewFileHeader(implPackage: string): string {
    Unlines([HeaderNote1, HeaderNote2, "package " + implPackage])
  }

  /** One import line; the path is written between double quotes. */
  function ImportLine(imp: Import): string {
    "import " + (if imp.name != "" then imp.name + " " else "") + "\"" + imp.path + "\"\n"
  }

  function ImportLines(imps: seq<Import>): string
    decreases |imps|
  {
    if imps == [] then "" else ImportLines(imps[..|imps| - 1]) + ImportLine(imps[|imps| - 1])
  }

  /** The declaration blocks of the records that are new, in order. */
  function NewDecls(rs: seq<RepositoryImpl>): string
    decreases |rs|
  {
    if rs == [] then ""
    else
      var r := rs[|rs| - 1];
      NewDecls(rs[..|rs| - 1]) + DeclBlock(r)
  }

  /** What one record adds to the declarations. */
  function DeclBlock(r: RepositoryImpl): string {
    if r.isNew then "\n" + RepositoryDecl(r.repo) else ""
  }

  /** The stubs of the methods `ms` of `r`, in order. */
  function MethodStubs(r: Repository, ms: seq<Method>): string
    decreases |ms|
  {
    if ms == [] then "" else MethodStubs(r, ms[..|ms| - 1]) + ("\n" + MethodStub(r, ms[|ms| - 1]))
  }

  /** The stubs of the new methods of every record, record by record. */
  function NewStubs(rs: seq<RepositoryImpl>): string
    requires Computable(rs)
    decreases |rs|
  {
    if rs == [] then ""
    else
      var r := rs[|rs| - 1];
      NewStubs(rs[..|rs| - 1]) + MethodStubs(r.repo, NewMethodsSpec(r))
  }

  /** Everything appended after the original text. */
  function Appended(rs: seq<RepositoryImpl>): string
    requires Computable(rs)
  {
    NewDecls(rs) + NewStubs(rs)
  }

  /** The imports written into the file. */
  function FileImports(modulePath: string, file: SourceFile, rs: seq<RepositoryImpl>)
    : seq<Import>
    requires Computable(rs)
  {
    Unused(Requested(modulePath, Ast(file), true, rs), Used(Ast(file)))
  }

  /** The file's lines through its `package` clause, or the header of a new file. */
  function Head(file: SourceFile, implPackage: string): string {
    if file.Present? then Unlines(file.lines[..HeadLength(file.lines)])
    else NewFileHeader(implPackage)
  }

  /** The file's lines after its `package` clause. */
  function Rest(file: SourceFile): string {
    if file.Present? then Unlines(file.lines[HeadLength(file.lines)..]) else ""
  }

  /** The text written into a file that is not unreadable, given the import list and the
      text appended after the original lines. */
  function Assembled(file: SourceFile, implPackage: string, imports: seq<Import>,
    appended: string): string
  {
    Head(file, implPackage) + ImportLines(imports) + Rest(file) + appended
  }

  /** The generated text of an implementation file, before formatting. The records are
      relabelled by the imports step first, so the text uses the aliases of the file; the
      header of a new file names the implementation package of the first record. */
  function MergedFile(modulePath: string, file: SourceFile, rs: seq<RepositoryImpl>)
    : Result<string>
  {
    if rs == [] then Ok("")
    else if file.Unreadable? then Err(Io(file.message))
    else if !Computable(rs) then Err(Panic(IndexPanic))
    else
      RelabeledComputable(modulePath, Ast(file), true, rs);
      Ok(Assembled(file, rs[0].implPackage, FileImports(modulePath, file, rs),
        Appended(Relabeled(modulePath, Ast(file), true, rs))))
  }

  /** Merging fails exactly when there are records and the file cannot be read, or when
      `NewMethods` panics on one of them. */
  lemma MergedFails(modulePath: string, file: SourceFile, rs: seq<RepositoryImpl>)
    ensures MergedFile(modulePath, file, rs).Err? <==>
      rs != [] && (file.Unreadable? || SomeUntyped(rs))
    ensures rs != [] && !file.Unreadable? && SomeUntyped(rs) ==>
      MergedFile(modulePath, file, rs) == Err(Panic(IndexPanic))
  {
    UncomputableWhen(rs);
  }

  // The buffer of generateRepositoryImplsForFile, loop by loop

  /** Writing one more line. */
  lemma UnlinesSnoc(ls: seq<string>, i: nat)
    requires i < |ls|
    ensures Unlines(ls[..i + 1]) == Unlines(ls[..i]) + (ls[i] + "\n")
  {
    assert ls[..i + 1] == ls[..i] + [ls[i]];
    UnlinesAppend(ls[..i], [ls[i]]);
  }

  /** The first scan of the original lines, which stops after the `package` clause. */
  method CopyHead(lines: seq<string>) returns (src: string, h: nat)
    ensures h == HeadLength(lines)
    ensures src == Unlines(lines[..h])
  {
    src := "";
    h := 0;
    var done := false;
    while h < |lines| && !done
      invariant h <= |lines|
      invariant src == Unlines(lines[..h])
      invariant done ==> h == HeadLength(lines)
      invariant !done ==> HeadLength(lines) == h + HeadLength(lines[h..])
    {
      assert lines[h..][1..] == lines[h + 1..];
      UnlinesSnoc(lines, h);
      src := src + (lines[h] + "\n");
      done := PackageClause(lines[h]);
      h := h + 1;
    }
    assert lines[h..] == [] ==> HeadLength(lines[h..]) == 0;
  }

  /** The second scan: the remaining original lines, verbatim. */
  method CopyRest(src: string, lines: seq<string>, h: nat) returns (src': string)
    requires h <= |lines|
    ensures src' == src + Unlines(lines[h..])
  {
    src' := src;
    var rest := lines[h..];
    for i := 0 to |rest|
      invariant src' == src + Unlines(rest[..i])
    {
      UnlinesSnoc(rest, i);
      Regrouped(src, Unlines(rest[..i]), rest[i] + "\n");
      src' := src' + (rest[i] + "\n");
    }
    assert rest[..|rest|] == rest;
  }

  method WriteImports(src: string, imps: seq<Import>) returns (src': string)
    ensures src' == src + ImportLines(imps)
  {
    src' := src;
    for i := 0 to |imps|
      invariant src' == src + ImportLines(imps[..i])
    {
      assert imps[..i + 1][..i] == imps[..i];
      var line := "import ";
      if imps[i].name != "" {
        line := line + (imps[i].name + " ");
      } else {
        assert line + "" == line;
      }
      line := line + "\"" + imps[i].path + "\"\n";
      Regrouped(src, ImportLines(imps[..i]), line);
      src' := src' + line;
    }
    assert imps[..|imps|] == imps;
  }

  lemma NewDeclsSnoc(rs: seq<RepositoryImpl>, i: nat)
    requires i < |rs|
    ensures NewDecls(rs[..i + 1]) == NewDecls(rs[..i]) + DeclBlock(rs[i])
  {
    assert rs[..i + 1][..i] == rs[..i];
  }

  method AppendDecls(src: string, rs: seq<RepositoryImpl>) returns (src': string)
    ensures src' == src + NewDecls(rs)
  {
    src' := src;
    for i := 0 to |rs|
      invariant src' == src + NewDecls(rs[..i])
    {
      NewDeclsSnoc(rs, i);
      Regrouped(src, NewDecls(rs[..i]), DeclBlock(rs[i]));
      if rs[i].isNew {
        src' := src' + ("\n" + RepositoryDecl(rs[i].repo));
      }
    }
    assert rs[..|rs|] == rs;
  }

  lemma MethodStubsSnoc(r: Repository, ms: seq<Method>, j: nat)
    requires j < |ms|
    ensures MethodStubs(r, ms[..j + 1]) == MethodStubs(r, ms[..j]) + ("\n" + MethodStub(r, ms[j]))
  {
    assert ms[..j + 1][..j] == ms[..j];
  }

  lemma NewStubsSnoc(rs: seq<RepositoryImpl>, i: nat)
    requires i < |rs| && Computable(rs)
    ensures Computable(rs[..i]) && Computable(rs[..i + 1])
    ensures NewStubs(rs[..i + 1]) == NewStubs(rs[..i]) + MethodStubs(rs[i].repo, NewMethodsSpec(rs[i]))
  {
    assert rs[..i + 1][..i] == rs[..i];
  }

  /** The stubs of the new methods of one record. */
  method AppendRecordStubs(src: string, r: RepositoryImpl) returns (src': string)
    requires AllTyped(Missing(r.repo.methods, r.implMethods))
    ensures src' == src + MethodStubs(r.repo, NewMethodsSpec(r))
  {
    src' := src;
    var res := NewMethods(r);
    var ms := res.value;
    for j := 0 to |ms|
      invariant src' == src + MethodStubs(r.repo, ms[..j])
    {
      MethodStubsSnoc(r.repo, ms, j);
      Regrouped(src, MethodStubs(r.repo, ms[..j]), "\n" + MethodStub(r.repo, ms[j]));
      src' := src' + ("\n" + MethodStub(r.repo, ms[j]));
    }
    assert ms[..|ms|] == ms;
  }

  method AppendStubs(src: string, rs: seq<RepositoryImpl>) returns (src': string)
    requires Computable(rs)
    ensures src' == src + NewStubs(rs)
  {
    src' := src;
    for i := 0 to |rs|
      invariant src' == src + NewStubs(rs[..i])
    {
      NewStubsSnoc(rs, i);
      Regrouped(src, NewStubs(rs[..i]), MethodStubs(rs[i].repo, NewMethodsSpec(rs[i])));
      src' := AppendRecordStubs(src', rs[i]);
    }
    assert rs[..|rs|] == rs;
  }

  /** Everything written after the first scan: the imports, the rest of the file and the
      appended blocks of the relabelled records. */
  method WriteBody(src: string, imports: seq<Import>, file: SourceFile, h: nat,
    rs: seq<RepositoryImpl>) returns (src': string)
    requires file.Present? ==> h == HeadLength(file.lines)
    requires Computable(rs)
    ensures src' == src + ImportLines(imports) + Rest(file) + Appended(rs)
  {
    src' := WriteImports(src, imports);
    if file.Present? {
      src' := CopyRest(src', file.lines, h);
    } else {
      assert src' + Rest(file) == src';
    }
    ghost var before := src';
    src' := AppendDecls(src', rs);
    src' := AppendStubs(src', rs);
    Regrouped(before, NewDecls(rs), NewStubs(rs));
  }

  /** `generateRepositoryImplsForFile` up to the formatting of its result. The records are
      relabelled in place, as `collectImports` does to the records it is given. */
  method GenerateImplsForFile(modulePath: string, file: SourceFile, rs: array<RepositoryImpl>)
    returns (r: Result<string>)
    modifies rs
    ensures r == MergedFile(modulePath, file, old(rs[..]))
    ensures rs[..] == (if rs.Length == 0 || file.Unreadable? then old(rs[..])
      else Relabeled(modulePath, Ast(file), true, old(rs[..])))
  {
    if rs.Length == 0 {
      return Ok("");
    }
    ghost var rs0 := rs[..];
    var src: string;
    var h := 0;
    if file.Unreadable? {
      return Err(Io(file.message));
    } else if file.Absent? {
      src := NewFileHeader(rs[0].implPackage);
    } else {
      src, h := CopyHead(file.lines);
    }
    var imports := CollectImports(modulePath, Ast(file), true, false, rs);
    if imports.Err? {
      return Err(imports.error);
    }
    RelabeledComputable(modulePath, Ast(file), true, rs0);
    src := WriteBody(src, imports.value, file, h, rs[..]);
    return Ok(src);
  }

  // What the generated text is made of

  /** Cutting the second of four parts out of their concatenation. */
  lemma CutOut(head: string, block: string, rest: string, tail: string)
    ensures var s := head + block + rest + tail;
      |head| + |block| <= |s| && s[|head|..|head| + |block|] == block
      && s[..|head|] + s[|head| + |block|..] == head + rest + tail
  {
    var s := head + block + rest + tail;
    assert s[..|head|] == head;
    assert s[|head|..|head| + |block|] == block;
    assert s[|head| + |block|..] == rest + tail;
  }

  /** Lines split in two, with a block between the halves and a tail after them. */
  lemma CutLines(lines: seq<string>, h: nat, block: string, tail: string)
    requires h <= |lines|
    ensures var head := Unlines(lines[..h]);
      var s := head + block + Unlines(lines[h..]) + tail;
      |head| + |block| <= |s| && s[|head|..|head| + |block|] == block
      && s[..|head|] + s[|head| + |block|..] == Unlines(lines) + tail
  {
    assert lines[..h] + lines[h..] == lines;
    UnlinesAppend(lines[..h], lines[h..]);
    CutOut(Unlines(lines[..h]), block, Unlines(lines[h..]), tail);
  }

  /** The original text comes through whole and in order: taking the import block out of the
      output leaves the file as it was, followed by the appended text. */
  lemma OriginalKept(lines: seq<string>, fileImports: seq<Import>, implPackage: string,
    imports: seq<Import>, appended: string)
    ensures var s := Assembled(Present(lines, fileImports), implPackage, imports, appended);
      var head := Unlines(lines[..HeadLength(lines)]);
      var block := ImportLines(imports);
      |head| + |block| <= |s| && s[|head|..|head| + |block|] == block
      && s[..|head|] + s[|head| + |block|..] == Unlines(lines) + appended
  {
    var h := HeadLength(lines);
    var file := Present(lines, fileImports);
    assert Head(file, implPackage) == Unlines(lines[..h]);
    assert Rest(file) == Unlines(lines[h..]);
    CutLines(lines, h, ImportLines(imports), appended);
  }

  /** The header of a new file ends in its `package` clause. */
  lemma HeaderClause(implPackage: string)
    ensures HasSuffix(NewFileHeader(implPackage), "package " + implPackage + "\n")
  {
    var clause := "package " + implPackage;
    UnlinesAppend([HeaderNote1, HeaderNote2], [clause]);
    assert [HeaderNote1, HeaderNote2] + [clause] == [HeaderNote1, HeaderNote2, clause];
    assert Unlines([clause]) == clause + "\n";
    Affixes(Unlines([HeaderNote1, HeaderNote2]), clause + "\n");
  }

  /** A file that does not exist yet starts with the header, which ends in the `package`
      clause of the implementation package, and has nothing but imports and appended text
      after it. */
  lemma NewFileStart(implPackage: string, imports: seq<Import>, appended: string)
    ensures Assembled(Absent, implPackage, imports, appended)
      == NewFileHeader(implPackage) + ImportLines(imports) + appended
    ensures HasSuffix(NewFileHeader(implPackage), "package " + implPackage + "\n")
  {
    assert NewFileHeader(implPackage) + ImportLines(imports) + ""
      == NewFileHeader(implPackage) + ImportLines(imports);
    HeaderClause(implPackage);
  }

  /** A declaration block is appended iff some record is new. */
  lemma {:induction false} NoNewDecls(rs: seq<RepositoryImpl>)
    ensures NewDecls(rs) == "" <==> forall i :: 0 <= i < |rs| ==> !rs[i].isNew
    decreases |rs|
  {
    if rs != [] {
      var init := rs[..|rs| - 1];
      NoNewDecls(init);
      assert forall i :: 0 <= i < |init| ==> init[i] == rs[i];
    }
  }

  /** A stub is appended iff some record misses a method. */
  lemma {:induction false} NoNewStubs(rs: seq<RepositoryImpl>)
    requires Computable(rs)
    ensures NewStubs(rs) == "" <==>
      forall i :: 0 <= i < |rs| ==> Missing(rs[i].repo.methods, rs[i].implMethods) == []
    decreases |rs|
  {
    if rs != [] {
      var init := rs[..|rs| - 1];
      var r := rs[|rs| - 1];
      assert forall i :: 0 <= i < |init| ==> init[i] == rs[i];
      NoNewStubs(init);
      var ms := NewMethodsSpec(r);
      assert ms != [] ==> MethodStubs(r.repo, ms) != "";
    }
  }

  /** The declarations of several records are those of each record, in record order. */
  lemma {:induction false} NewDeclsAppend(a: seq<RepositoryImpl>, b: seq<RepositoryImpl>)
    ensures NewDecls(a + b) == NewDecls(a) + NewDecls(b)
    decreases |b|
  {
    if b == [] {
      assert a + b == a;
    } else {
      var init := b[..|b| - 1];
      assert (a + b)[..|a + b| - 1] == a + init;
      NewDeclsAppend(a, init);
      Regrouped(NewDecls(a), NewDecls(init), DeclBlock(b[|b| - 1]));
    }
  }

  lemma ComputableAppend(a: seq<RepositoryImpl>, b: seq<RepositoryImpl>)
    requires Computable(a) && Computable(b)
    ensures Computable(a + b)
  {
    assert forall i :: 0 <= i < |a| + |b| ==> (a + b)[i] == if i < |a| then a[i] else b[i - |a|];
  }

  /** The stubs of several records are those of each record, in record order. */
  lemma {:induction false} NewStubsAppend(a: seq<RepositoryImpl>, b: seq<RepositoryImpl>)
    requires Computable(a) && Computable(b)
    ensures Computable(a + b)
    ensures NewStubs(a + b) == NewStubs(a) + NewStubs(b)
    decreases |b|
  {
    ComputableAppend(a, b);
    if b == [] {
      assert a + b == a;
    } else {
      var init := b[..|b| - 1];
      var r := b[|b| - 1];
      assert Computable(init) by {
        assert forall i :: 0 <= i < |init| ==> init[i] == b[i];
      }
      NewStubsAppend(a, init);
      var t := MethodStubs(r.repo, NewMethodsSpec(r));
      AppendInit(a, b);
      assert NewStubs(a + b) == NewStubs(a + init) + t;
      assert NewStubs(b) == NewStubs(init) + t;
      Regrouped(NewStubs(a), NewStubs(init), t);
    }
  }
}
