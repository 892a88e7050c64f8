/** The two code templates of the generator, `generateMethodTemplate` and
    `generateRepositoryImplTemplate`, as the lines they expand to. The trim markers of the
    templates decide the exact line breaks; every line of a template ends in a newline. */
module Templates {
  import opened GoStrings
  import opened Types
  import opened Naming
  import opened Signature

  /** The text of `ls`, each line ended by a newline. */
  function Unlines(ls: seq<string>): (s: string)
    ensures |s| >= |ls|
    decreases |ls|
  {
    if ls == [] then "" else ls[0] + "\n" + Unlines(ls[1..])
  }

  /** Writing lines is writing the first ones, then the others. */
  lemma {:induction false} UnlinesAppend(a: seq<string>, b: seq<string>)
    ensures Unlines(a + b) == Unlines(a) + Unlines(b)
    decreases |a|
  {
    if a != [] {
      assert (a + b)[1..] == a[1..] + b;
      UnlinesAppend(a[1..], b);
    } else {
      assert a + b == b;
    }
  }

  /** Lines free of newlines are exactly the pieces of their text between the newlines. */
  lemma {:induction false} UnlinesSplit(ls: seq<string>)
    requires forall i :: 0 <= i < |ls| ==> '\n' !in ls[i]
    ensures Split(Unlines(ls), '\n') == ls + [""]
    decreases |ls|
  {
    if ls != [] {
      UnlinesSplit(ls[1..]);
      SplitAppend(ls[0], '\n', Unlines(ls[1..]));
      SplitWithout(ls[0], '\n');
      assert [ls[0]] + (ls[1..] + [""]) == ls + [""];
    } else {
      assert Split("", '\n') == [""];
    }
  }

  // The method stub

  /** The template's `pad`: the result list between single spaces, or one space alone. */
  function Pad(s: string): string {
    if s == "" then " " else " " + s + " "
  }

  /** The rest of the signature line of a stub: the receiver is a pointer to the
      implementation, results are written as `ReturnsSrc` writes them. */
  function Declarator(r: Repository, m: Method): string {
    " (r *" + ImplName(r) + ") " + m.ident + "(" + Source(Qualified(m.params)) + ")"
      + Pad(ReturnsSource(m.results)) + "{"
  }

  /** The name the error wrap and the panic use: the qualified contract and the method. */
  function Target(r: Repository, m: Method): string {
    QualifiedName(r) + "." + m.ident
  }

  /** The rest of the tracing line: the tracer is named after the contract's package, the span
      after the contract's name and the method. */
  function SpanStart(r: Repository, m: Method): string {
    ", span := otel.GetTracerProvider().Tracer(\"" + r.pkg + "\").Start(ctx, \""
      + Name(r) + "." + m.ident + "\")"
  }

  function ErrorWrap(r: Repository, m: Method): string {
    " = eris.Wrap(err, \"" + Target(r, m) + "\")"
  }

  function PanicCall(r: Repository, m: Method): string {
    "(\"TODO: implement " + Target(r, m) + "\")"
  }

  const SpanDefer := "    defer span.End()"
  const SpanEnd := "      span.End()"
  const DeferOpen := "    defer func() {"

  /** The lines between the signature and the panic: tracing for a context parameter, an error
      wrap for an error result, both in one deferred function when there are both. */
  function Instrumentation(span: string, wrap: string, ctx: bool, err: bool): seq<string> {
    if ctx then
      ["    ctx" + span]
      + (if err then
           [DeferOpen, "      if err != nil {", "        err" + wrap,
            "        span.SetStatus(codes.Error, \"\")", "        span.RecordError(err)",
            "      }", SpanEnd, "    }()"]
         else [SpanDefer])
      + ["    _ = ctx"]
    else if err then
      [DeferOpen, "      if err != nil {", "        err" + wrap, "      }", "    }()"]
    else []
  }

  /** The method template with its holes filled: the rest of the signature, of the tracing
      line, of the error wrap and of the panic. The first line is empty. */
  function Stub(decl: string, span: string, wrap: string, todo: string, ctx: bool, err: bool)
    : seq<string>
  {
    ["", "  func" + decl] + Instrumentation(span, wrap, ctx, err) + ["    panic" + todo, "  }"]
  }

  /** The lines of the stub of `m`. */
  function StubLines(r: Repository, m: Method): seq<string> {
    Stub(Declarator(r, m), SpanStart(r, m), ErrorWrap(r, m), PanicCall(r, m),
      HasCtx(m.params), HasError(m.results))
  }

  /** `generateMethodImpl`. */
  function MethodStub(r: Repository, m: Method): string {
    Unlines(StubLines(r, m))
  }

  /** The character at column 4 of a line, or a space when the line is shorter. */
  function Column4(l: string): char {
    if |l| > 4 then l[4] else ' '
  }

  /** Column 6, which tells apart the lines indented by six spaces. */
  function Column6(l: string): char {
    if |l| > 6 then l[6] else ' '
  }

  /** What tells apart the lines of a stub. */
  lemma Columns(decl: string, span: string, wrap: string, todo: string)
    ensures Column4("  func" + decl) == 'n' && Column4("    ctx" + span) == 'c'
    ensures Column4("    panic" + todo) == 'p'
    ensures Column4("        err" + wrap) == ' ' && Column6("        err" + wrap) == ' '
    ensures Column4(DeferOpen) == 'd' && Column4(SpanDefer) == 'd' && Column4("    }()") == '}'
    ensures Column4("    _ = ctx") == '_' && Column6(SpanEnd) == 's'
    ensures Column6("      if err != nil {") == 'i' && Column6("      }") == '}'
  {
    var h, t, w, p := "  func", "    ctx", "        err", "    panic";
    assert |h| > 4 && h[4] == 'n';
    assert |t| > 4 && t[4] == 'c';
    assert |w| > 6 && w[4] == ' ' && w[6] == ' ';
    assert |p| > 4 && p[4] == 'p';
  }

  lemma StubTraced(decl: string, span: string, wrap: string, todo: string, ctx: bool, err: bool)
    ensures "    ctx" + span in Stub(decl, span, wrap, todo, ctx, err) <==> ctx
  {
    Columns(decl, span, wrap, todo);
  }

  lemma StubWrapped(decl: string, span: string, wrap: string, todo: string, ctx: bool, err: bool)
    ensures "        err" + wrap in Stub(decl, span, wrap, todo, ctx, err) <==> err
  {
    Columns(decl, span, wrap, todo);
  }

  lemma StubSpanEnd(decl: string, span: string, wrap: string, todo: string, ctx: bool, err: bool)
    ensures SpanEnd in Stub(decl, span, wrap, todo, ctx, err) <==> ctx && err
  {
    Columns(decl, span, wrap, todo);
    if ctx && err {
      assert Stub(decl, span, wrap, todo, ctx, err)[9] == SpanEnd;
    }
  }

  lemma StubSpanDefer(decl: string, span: string, wrap: string, todo: string, ctx: bool, err: bool)
    ensures SpanDefer in Stub(decl, span, wrap, todo, ctx, err) <==> ctx && !err
  {
    Columns(decl, span, wrap, todo);
    if ctx && !err {
      assert Stub(decl, span, wrap, todo, ctx, err)[3] == SpanDefer;
    }
  }

  lemma StubDeferOpen(decl: string, span: string, wrap: string, todo: string, ctx: bool, err: bool)
    ensures DeferOpen in Stub(decl, span, wrap, todo, ctx, err) <==> err
  {
    Columns(decl, span, wrap, todo);
  }

  /** A stub has a tracing span exactly when the method takes a context. */
  lemma TracedIffContext(r: Repository, m: Method)
    ensures "    ctx" + SpanStart(r, m) in StubLines(r, m) <==> HasCtx(m.params)
  {
    StubTraced(Declarator(r, m), SpanStart(r, m), ErrorWrap(r, m), PanicCall(r, m),
      HasCtx(m.params), HasError(m.results));
  }

  /** A stub wraps the returned error exactly when the method returns one. */
  lemma WrappedIffError(r: Repository, m: Method)
    ensures "        err" + ErrorWrap(r, m) in StubLines(r, m) <==> HasError(m.results)
  {
    StubWrapped(Declarator(r, m), SpanStart(r, m), ErrorWrap(r, m), PanicCall(r, m),
      HasCtx(m.params), HasError(m.results));
  }

  /** The two blocks combine into one deferred function: with a context and an error the span
      ends inside the error wrap's deferred function, with a context alone the span is ended
      by a defer of its own, and there is never both. */
  lemma OneDefer(r: Repository, m: Method)
    ensures SpanEnd in StubLines(r, m) <==> HasCtx(m.params) && HasError(m.results)
    ensures SpanDefer in StubLines(r, m) <==> HasCtx(m.params) && !HasError(m.results)
    ensures DeferOpen in StubLines(r, m) <==> HasError(m.results)
    ensures !(DeferOpen in StubLines(r, m) && SpanDefer in StubLines(r, m))
  {
    var decl, span, wrap, todo := Declarator(r, m), SpanStart(r, m), ErrorWrap(r, m), PanicCall(r, m);
    StubSpanEnd(decl, span, wrap, todo, HasCtx(m.params), HasError(m.results));
    StubSpanDefer(decl, span, wrap, todo, HasCtx(m.params), HasError(m.results));
    StubDeferOpen(decl, span, wrap, todo, HasCtx(m.params), HasError(m.results));
  }

  /** Every stub text starts with an empty line and the signature, and ends by panicking with
      the qualified method name. */
  lemma StubShape(r: Repository, m: Method)
    ensures HasPrefix(MethodStub(r, m), "\n" + ("  func" + Declarator(r, m)) + "\n")
    ensures HasSuffix(MethodStub(r, m), "\n" + ("    panic" + PanicCall(r, m)) + "\n  }\n")
  {
    var h, p := "  func" + Declarator(r, m), "    panic" + PanicCall(r, m);
    var mid := Instrumentation(SpanStart(r, m), ErrorWrap(r, m), HasCtx(m.params), HasError(m.results));
    StubStarts(h, mid, p);
    StubEnds(h, mid, p);
  }

  /** A non-empty text of lines ends in a newline. */
  lemma UnlinesEnd(ls: seq<string>)
    requires ls != []
    ensures var u := Unlines(ls); u != [] && u == u[..|u| - 1] + "\n"
  {
    var n := |ls|;
    assert ls == ls[..n - 1] + [ls[n - 1]];
    UnlinesAppend(ls[..n - 1], [ls[n - 1]]);
    assert Unlines([ls[n - 1]]) == ls[n - 1] + "\n";
  }

  lemma UnlinesTwo(a: string, b: string)
    ensures Unlines([a, b]) == a + "\n" + (b + "\n")
  {
    assert [a, b][1..] == [b];
    assert [b][1..] == [];
    assert Unlines([b]) == b + "\n" + "";
    assert b + "\n" + "" == b + "\n";
    Regrouped(a + "\n", b + "\n", "");
  }

  /** A stub's text starts with an empty line and its first line. */
  lemma StubStarts(h: string, mid: seq<string>, p: string)
    ensures HasPrefix(Unlines(["", h] + mid + [p, "  }"]), "\n" + h + "\n")
  {
    var head := ["", h] + mid;
    UnlinesAppend(head, [p, "  }"]);
    UnlinesAppend(["", h], mid);
    UnlinesTwo("", h);
    assert "" + "\n" == "\n";
    Regrouped("\n", h, "\n");
    var a, b, c := "\n" + h + "\n", Unlines(mid), Unlines([p, "  }"]);
    Regrouped(a, b, c);
    Affixes(a, b + c);
  }

  /** A stub's text ends with its last line and the closing brace. */
  lemma StubEnds(h: string, mid: seq<string>, p: string)
    ensures HasSuffix(Unlines(["", h] + mid + [p, "  }"]), "\n" + p + "\n  }\n")
  {
    var head := ["", h] + mid;
    UnlinesAppend(head, [p, "  }"]);
    UnlinesTwo(p, "  }");
    var u := Unlines(head);
    UnlinesEnd(head);
    var v := u[..|u| - 1];
    Regrouped(v, "\n", p + "\n" + ("  }" + "\n"));
    Regrouped("\n", p + "\n", "  }" + "\n");
    Regrouped("\n", p, "\n");
    Regrouped("\n" + p + "\n", "  }", "\n");
    assert "\n" + p + "\n" + "  }" == "\n" + p + "\n  }" by {
      Regrouped("\n" + p, "\n", "  }");
    }
    Affixes(v, "\n" + p + "\n  }\n");
  }

  // The repository declarations

  /** `generateRepositoryImplTemplate` with its holes filled: the dependencies struct, the fx
      options that provide the constructor, the constructor and the implementation struct. */
  function Decl(deps: string, opts: string, ctor: string, ret: string, impl: string)
    : seq<string>
  {
    ["", "type " + deps + " struct {", "  fx.In", "\t// Add dependencies here", "}", "",
     "var " + opts + " = fx.Options(", "\tfx.Provide(", "\t\t" + ctor + ",", "\t),", ")", "",
     "func " + ctor + "(deps " + deps + ") " + ret + " {",
     "\treturn &" + impl + "{", "    " + deps + ": deps,", "\t}", "}", "",
     "type " + impl + " struct {", "  " + deps, "}"]
  }

  /** The options variable a declaration block defines and the registry lists. */
  function OptionsVar(r: Repository): (v: string)
    ensures HasSuffix(v, "Options")
  {
    QualifyString(r, "Options")
  }

  /** The lines of the declarations of a new implementation of `r`. */
  function DeclLines(r: Repository): seq<string> {
    Decl(QualifyString(r, "Dependencies"), OptionsVar(r), Constructor(r), r.pkg + "." + r.ident,
      ImplName(r))
  }

  function Constructor(r: Repository): string {
    "New" + r.ident
  }

  /** `generateRepositoryImpl`. */
  function RepositoryDecl(r: Repository): string {
    Unlines(DeclLines(r))
  }

  lemma DeclParts(deps: string, opts: string, ctor: string, ret: string, impl: string)
    ensures var ls := Decl(deps, opts, ctor, ret, impl);
      "var " + opts + " = fx.Options(" in ls
      && "\t\t" + ctor + "," in ls
      && "func " + ctor + "(deps " + deps + ") " + ret + " {" in ls
      && "\treturn &" + impl + "{" in ls
      && "type " + impl + " struct {" in ls
      && "  " + deps in ls
  {
    var ls := Decl(deps, opts, ctor, ret, impl);
    assert ls[6] == "var " + opts + " = fx.Options(";
    assert ls[8] == "\t\t" + ctor + ",";
    assert ls[12] == "func " + ctor + "(deps " + deps + ") " + ret + " {";
    assert ls[13] == "\treturn &" + impl + "{";
    assert ls[18] == "type " + impl + " struct {";
    assert ls[19] == "  " + deps;
  }

  /** The block defines the options variable of the contract, provides the constructor it
      declares, which takes the dependencies and returns the contract type, and declares the
      implementation the constructor returns, embedding the dependencies. */
  lemma DeclWiring(r: Repository)
    ensures var ls, deps := DeclLines(r), QualifyString(r, "Dependencies");
      "var " + OptionsVar(r) + " = fx.Options(" in ls
      && "\t\t" + Constructor(r) + "," in ls
      && "func " + Constructor(r) + "(deps " + deps + ") " + (r.pkg + "." + r.ident) + " {" in ls
      && "\treturn &" + ImplName(r) + "{" in ls
      && "type " + ImplName(r) + " struct {" in ls
      && "  " + deps in ls
  {
    var deps := QualifyString(r, "Dependencies");
    DeclParts(deps, OptionsVar(r), Constructor(r), r.pkg + "." + r.ident, ImplName(r));
  }

  /** The bare `Repository` of a package, and only a contract named like it, declares the
      unqualified `Dependencies` and `Options`. */
  lemma BareNames(r: Repository)
    ensures OptionsVar(r) == "Options" <==> Name(r) == Suffix || r.ident == ""
    ensures r.ident == Suffix ==>
      OptionsVar(r) == "Options" && QualifyString(r, "Dependencies") == "Dependencies"
  {
    if r.ident == Suffix {
      assert !(|r.ident| > 10);
    }
  }
}
