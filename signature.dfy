/** Signatures of the methods a stub must implement: which contract methods are missing
    from the implementation, how their types are qualified with the API package, how
    parameters are named, and how a parameter or result list is written back as Go source. */
module Signature {
  import opened GoStrings
  import opened Types
  import opened Naming

  // ---------------------------------------------------------------------------------------
  // Qualify: naming the parameters of a list that has a context, an error or a name

  /** The name `Qualify` gives one parameter of a list it rewrites. */
  function QualifyParam(p: Param): (q: Param)
    ensures q.typ == p.typ && q.ident != ""
    ensures p.typ == "context.Context" ==> q.ident == "ctx"
    ensures p.typ == "error" ==> q.ident == "err"
    ensures p.typ != "context.Context" && p.typ != "error" && p.ident == "" ==> q.ident == "_"
    ensures p.ident != "" && p.typ != "context.Context" && p.typ != "error" ==> q == p
  {
    if p.typ == "context.Context" then p.(ident := "ctx")
    else if p.typ == "error" then p.(ident := "err")
    else if p.ident == "" then p.(ident := "_")
    else p
  }

  /** What `Qualify` leaves in the list: unchanged unless the list has a context, an error
      or a named parameter, and otherwise every parameter named. */
  function Qualified(ps: seq<Param>): (qs: seq<Param>)
    ensures |qs| == |ps|
    ensures forall i :: 0 <= i < |ps| ==> qs[i].typ == ps[i].typ
  {
    if !HasCtx(ps) && !HasError(ps) && !Named(ps) then ps
    else seq(|ps|, i requires 0 <= i < |ps| => QualifyParam(ps[i]))
  }

  /** A list without a context, an error or a name is left exactly as it was: every
      parameter stays unnamed. */
  lemma QualifiedUntouched(ps: seq<Param>)
    requires !HasCtx(ps) && !HasError(ps) && !Named(ps)
    ensures Qualified(ps) == ps
    ensures forall i :: 0 <= i < |ps| ==>
      ps[i].ident == "" && ps[i].typ != "context.Context" && ps[i].typ != "error"
  {
  }

  /** A list with a context, an error or a name is named throughout: contexts become `ctx`,
      errors `err`, the other unnamed parameters `_`, and the other names are kept. */
  lemma QualifiedNamed(ps: seq<Param>)
    requires HasCtx(ps) || HasError(ps) || Named(ps)
    ensures forall i :: 0 <= i < |ps| ==> Qualified(ps)[i] == QualifyParam(ps[i])
    ensures forall i :: 0 <= i < |ps| ==> Qualified(ps)[i].ident != ""
    ensures forall i :: 0 <= i < |ps| && ps[i].typ == "context.Context" ==> Qualified(ps)[i].ident == "ctx"
    ensures forall i :: 0 <= i < |ps| && ps[i].typ == "error" ==> Qualified(ps)[i].ident == "err"
    ensures forall i :: 0 <= i < |ps| ==>
      ps[i].typ != "context.Context" && ps[i].typ != "error" && ps[i].ident == "" ==>
      Qualified(ps)[i].ident == "_"
    ensures forall i :: 0 <= i < |ps| ==>
      ps[i].typ != "context.Context" && ps[i].typ != "error" && ps[i].ident != "" ==>
      Qualified(ps)[i] == ps[i]
  {
  }

  /** `Qualify` is idempotent, so rendering a list twice (the template renders every list
      it shows through `Qualify`) writes the same names. */
  lemma QualifiedIdempotent(ps: seq<Param>)
    ensures Qualified(Qualified(ps)) == Qualified(ps)
  {
    var qs := Qualified(ps);
    if qs != ps && qs != [] {
      assert qs[0].ident != "";
      assert Named(qs);
      assert forall i :: 0 <= i < |qs| ==> QualifyParam(qs[i]) == qs[i];
    }
  }

  /** `Params.Qualify`, which rewrites the identifiers of the list in place. */
  method Qualify(p: array<Param>)
    modifies p
    ensures p[..] == Qualified(old(p[..]))
  {
    var hasCtx := HasCtx(p[..]);
    var hasErr := HasError(p[..]);
    var named := Named(p[..]);
    if !hasCtx && !hasErr && !named {
      return;
    }
    for i := 0 to p.Length
      invariant forall k :: 0 <= k < i ==> p[k] == QualifyParam(old(p[k]))
      invariant forall k :: i <= k < p.Length ==> p[k] == old(p[k])
    {
      var param := p[i];
      if param.typ == "context.Context" {
        p[i] := param.(ident := "ctx");
      } else if param.typ == "error" {
        p[i] := param.(ident := "err");
      } else if param.ident == "" {
        p[i] := param.(ident := "_");
      }
    }
  }

  // ---------------------------------------------------------------------------------------
  // ParamsSrc and ReturnsSrc: writing a list back as source

  /** How `ParamsSrc` writes the `i`-th parameter: a parameter whose type equals the next
      one's is written as its identifier alone (`a, b int`), even when that is empty. */
  function Written(ps: seq<Param>, i: nat): string
    requires i < |ps|
  {
    if i < |ps| - 1 && ps[i].typ == ps[i + 1].typ then ps[i].ident
    else if ps[i].ident != "" then ps[i].ident + " " + ps[i].typ
    else ps[i].typ
  }

  function WrittenAll(ps: seq<Param>): (r: seq<string>)
    ensures |r| == |ps|
  {
    seq(|ps|, i requires 0 <= i < |ps| => Written(ps, i))
  }

  /** The text `ParamsSrc` produces for a list that has been through `Qualify`. */
  function Source(ps: seq<Param>): string {
    JoinWith(WrittenAll(ps), ", ")
  }

  /** The writing loop of `ParamsSrc`. */
  method WriteParams(ps: seq<Param>) returns (s: string)
    ensures s == Source(ps)
  {
    var n := |ps|;
    s := "";
    for i := 0 to n
      invariant i > 0 ==> s == JoinWith(WrittenAll(ps)[..i], ", ")
      invariant i == 0 ==> s == ""
    {
      if i > 0 {
        s := s + ", ";
      }
      var param := ps[i];
      if i < n - 1 && param.typ == ps[i + 1].typ {
        s := s + param.ident;
      } else if param.ident != "" {
        s := s + param.ident + " " + param.typ;
      } else {
        s := s + param.typ;
      }
      assert WrittenAll(ps)[..i + 1] == WrittenAll(ps)[..i] + [Written(ps, i)];
      if i > 0 {
        JoinWithSnoc(WrittenAll(ps)[..i], ", ", Written(ps, i));
      }
    }
    assert WrittenAll(ps)[..n] == WrittenAll(ps);
  }

  /** `Params.ParamsSrc`: qualifies the list in place, then writes it. */
  method ParamsSrc(p: array<Param>) returns (s: string)
    modifies p
    ensures p[..] == Qualified(old(p[..]))
    ensures s == Source(p[..])
  {
    Qualify(p);
    s := WriteParams(p[..]);
  }

  /** The text `ReturnsSrc` produces: parenthesised exactly when the qualified list is named. */
  function ReturnsSource(ps: seq<Param>): string {
    var qs := Qualified(ps);
    if Named(qs) then "(" + Source(qs) + ")" else Source(qs)
  }

  /** `Params.ReturnsSrc`. */
  method ReturnsSrc(p: array<Param>) returns (s: string)
    modifies p
    ensures p[..] == Qualified(old(p[..]))
    ensures s == ReturnsSource(old(p[..]))
  {
    Qualify(p);
    QualifiedIdempotent(old(p[..]));
    var src := ParamsSrc(p);
    var named := Named(p[..]);
    if named {
      return "(" + src + ")";
    }
    return src;
  }

  // ---------------------------------------------------------------------------------------
  // NewMethods

  /** Whether `NewMethods` leaves a type alone: it names a type of another package, or it
      starts with a lower-case letter (a predeclared type such as `int` or `map[...]T`). */
  predicate KeepsType(t: string)
    requires t != ""
  {
    '.' in t || 'a' <= t[0] <= 'z'
  }

  /** The type as the stub writes it from the implementation package. */
  function QualifyType(pkg: string, t: string): (q: string)
    requires t != ""
    ensures KeepsType(t) ==> q == t
    ensures !KeepsType(t) ==> q == pkg + "." + t
  {
    if KeepsType(t) then t else pkg + "." + t
  }

  /** Qualifying a qualified type changes nothing. */
  lemma QualifyTypeIdempotent(pkg: string, t: string)
    requires t != ""
    ensures QualifyType(pkg, t) != "" && QualifyType(pkg, QualifyType(pkg, t)) == QualifyType(pkg, t)
  {
    var q := QualifyType(pkg, t);
    if !KeepsType(t) {
      assert q[|pkg|] == '.';
    }
  }

  /** Slice and pointer types of the API package are prefixed as a whole, map types not at
      all. */
  lemma CompositeTypes()
    ensures QualifyType("api", "[]Movie") == "api.[]Movie"
    ensures QualifyType("api", "*Movie") == "api.*Movie"
    ensures QualifyType("api", "map[string]Movie") == "map[string]Movie"
    ensures QualifyType("api", "Movie") == "api.Movie"
    ensures QualifyType("api", "context.Context") == "context.Context"
  {
    assert "context.Context"[7] == '.';
    assert forall k :: 0 <= k < |"[]Movie"| ==> "[]Movie"[k] != '.';
    assert forall k :: 0 <= k < |"*Movie"| ==> "*Movie"[k] != '.';
    assert forall k :: 0 <= k < |"Movie"| ==> "Movie"[k] != '.';
  }

  predicate Typed(ps: seq<Param>) {
    forall i :: 0 <= i < |ps| ==> ps[i].typ != ""
  }

  function QualifyParams(pkg: string, ps: seq<Param>): (qs: seq<Param>)
    requires Typed(ps)
    ensures |qs| == |ps|
  {
    seq(|ps|, i requires 0 <= i < |ps| => Param(ps[i].ident, QualifyType(pkg, ps[i].typ)))
  }

  /** The contract methods the implementation does not have, in contract order. */
  function Missing(ms: seq<Method>, implemented: seq<string>): (r: seq<Method>)
    ensures |r| <= |ms|
    decreases |ms|
  {
    if ms == [] then []
    else if ms[0].ident in implemented then Missing(ms[1..], implemented)
    else [ms[0]] + Missing(ms[1..], implemented)
  }

  predicate AllTyped(ms: seq<Method>) {
    forall i :: 0 <= i < |ms| ==> Typed(ms[i].params) && Typed(ms[i].results)
  }

  /** The method of `NewMethods`' result for a missing method. */
  function Qualifying(pkg: string, m: Method): Method
    requires Typed(m.params) && Typed(m.results)
  {
    Method(m.ident, QualifyParams(pkg, m.params), QualifyParams(pkg, m.results))
  }

  function QualifyingAll(pkg: string, ms: seq<Method>): (r: seq<Method>)
    requires AllTyped(ms)
    ensures |r| == |ms|
  {
    seq(|ms|, i requires 0 <= i < |ms| => Qualifying(pkg, ms[i]))
  }

  /** The methods `NewMethods` returns when every type of a missing method is non-empty. */
  function NewMethodsSpec(r: RepositoryImpl): (ms: seq<Method>)
    requires AllTyped(Missing(r.repo.methods, r.implMethods))
  {
    QualifyingAll(r.repo.pkg, Missing(r.repo.methods, r.implMethods))
  }

  /** What `NewMethods` gives: its methods, or the panic of `qualify` reading the first byte
      of an empty type of a missing method. */
  function NewMethodsResult(r: RepositoryImpl): (res: Result<seq<Method>>)
    ensures res.Err? ==> res.error == Panic(IndexPanic)
  {
    if AllTyped(Missing(r.repo.methods, r.implMethods)) then Ok(NewMethodsSpec(r))
    else Err(Panic(IndexPanic))
  }

  /** `qualify` over one list. It stops with a panic at the first empty type. */
  method QualifyAll(pkg: string, ps: seq<Param>) returns (qs: Result<seq<Param>>)
    ensures qs.Ok? <==> Typed(ps)
    ensures qs.Ok? ==> qs.value == QualifyParams(pkg, ps)
    ensures qs.Err? ==> qs.error == Panic(IndexPanic)
  {
    var out := new Param[|ps|](_ => Param("", ""));
    for i := 0 to |ps|
      invariant forall k :: 0 <= k < i ==> ps[k].typ != ""
      invariant forall k :: 0 <= k < i ==> out[k] == Param(ps[k].ident, QualifyType(pkg, ps[k].typ))
    {
      var arg := ps[i];
      if arg.typ == "" {
        return Err(Panic(IndexPanic));
      }
      var isLower := 'a' <= arg.typ[0] <= 'z';
      var dotted := '.' in arg.typ;
      if dotted || isLower {
        out[i] := arg;
      } else {
        out[i] := Param(arg.ident, pkg + "." + arg.typ);
      }
    }
    return Ok(out[..]);
  }

  lemma {:induction false} MissingAppend(a: seq<Method>, b: seq<Method>, implemented: seq<string>)
    ensures Missing(a + b, implemented) == Missing(a, implemented) + Missing(b, implemented)
    decreases |a|
  {
    if a != [] {
      assert (a + b)[1..] == a[1..] + b;
      MissingAppend(a[1..], b, implemented);
    } else {
      assert a + b == b;
    }
  }

  lemma AllTypedAppend(a: seq<Method>, b: seq<Method>)
    ensures AllTyped(a + b) <==> AllTyped(a) && AllTyped(b)
  {
    assert forall i :: 0 <= i < |a| ==> a[i] == (a + b)[i];
    assert forall i :: 0 <= i < |b| ==> b[i] == (a + b)[|a| + i];
  }

  lemma QualifyingAllAppend(pkg: string, a: seq<Method>, b: seq<Method>)
    requires AllTyped(a) && AllTyped(b)
    ensures AllTyped(a + b)
    ensures QualifyingAll(pkg, a + b) == QualifyingAll(pkg, a) + QualifyingAll(pkg, b)
  {
    AllTypedAppend(a, b);
  }

  /** One more contract method: it is missing unless implemented, and it is qualified and
      appended when it is missing. */
  lemma NewMethodsStep(pkg: string, all: seq<Method>, i: nat, implemented: seq<string>)
    requires i < |all| && AllTyped(Missing(all[..i], implemented))
    ensures AllTyped(Missing(all[..i + 1], implemented))
      <==> all[i].ident in implemented || (Typed(all[i].params) && Typed(all[i].results))
    ensures AllTyped(Missing(all[..i + 1], implemented)) ==>
      QualifyingAll(pkg, Missing(all[..i + 1], implemented))
        == QualifyingAll(pkg, Missing(all[..i], implemented))
           + (if all[i].ident in implemented then [] else [Qualifying(pkg, all[i])])
  {
    var m := Missing([all[i]], implemented);
    assert all[..i + 1] == all[..i] + [all[i]];
    MissingAppend(all[..i], [all[i]], implemented);
    assert m == if all[i].ident in implemented then [] else [all[i]];
    AllTypedAppend(Missing(all[..i], implemented), m);
    if AllTyped(m) {
      QualifyingAllAppend(pkg, Missing(all[..i], implemented), m);
    }
  }

  /** A missing method with an empty type among the first `j` makes the whole result a
      panic. */
  lemma UntypedPrefix(all: seq<Method>, j: nat, implemented: seq<string>)
    requires j <= |all| && !AllTyped(Missing(all[..j], implemented))
    ensures !AllTyped(Missing(all, implemented))
  {
    assert all == all[..j] + all[j..];
    MissingAppend(all[..j], all[j..], implemented);
    AllTypedAppend(Missing(all[..j], implemented), Missing(all[j..], implemented));
  }

  /** `RepositoryImpl.NewMethods`. */
  method NewMethods(r: RepositoryImpl) returns (res: Result<seq<Method>>)
    ensures res == NewMethodsResult(r)
  {
    var ms := [];
    var all := r.repo.methods;
    for i := 0 to |all|
      invariant AllTyped(Missing(all[..i], r.implMethods))
      invariant ms == QualifyingAll(r.repo.pkg, Missing(all[..i], r.implMethods))
    {
      NewMethodsStep(r.repo.pkg, all, i, r.implMethods);
      var m := all[i];
      var existing := Contains(r.implMethods, m.ident);
      if existing {
        continue;
      }
      var args := QualifyAll(r.repo.pkg, m.params);
      if args.Err? {
        UntypedPrefix(all, i + 1, r.implMethods);
        return Err(args.error);
      }
      var rets := QualifyAll(r.repo.pkg, m.results);
      if rets.Err? {
        UntypedPrefix(all, i + 1, r.implMethods);
        return Err(rets.error);
      }
      ms := ms + [Method(m.ident, args.value, rets.value)];
    }
    assert all[..|all|] == all;
    return Ok(ms);
  }

  /** `NewMethods` panics exactly when some contract method the implementation lacks has a
      parameter or a result without a type. */
  lemma NewMethodsPanics(r: RepositoryImpl)
    ensures NewMethodsResult(r).Err? <==>
      exists m :: m in r.repo.methods && m.ident !in r.implMethods
        && !(Typed(m.params) && Typed(m.results))
  {
    var missing := Missing(r.repo.methods, r.implMethods);
    MissingExactly(r.repo.methods, r.implMethods);
    if !AllTyped(missing) {
      var k :| 0 <= k < |missing| && !(Typed(missing[k].params) && Typed(missing[k].results));
      assert missing[k] in missing;
    }
    forall m | m in r.repo.methods && m.ident !in r.implMethods
      ensures (Typed(m.params) && Typed(m.results)) || !AllTyped(missing)
    {
      assert m in missing;
      var k :| 0 <= k < |missing| && missing[k] == m;
    }
  }

  /** `NewMethods` keeps exactly the methods the implementation lacks, in contract order:
      a method is in the result iff its name is not implemented. */
  lemma {:induction false} MissingExactly(ms: seq<Method>, implemented: seq<string>)
    ensures forall m :: m in Missing(ms, implemented) <==> m in ms && m.ident !in implemented
    decreases |ms|
  {
    if ms != [] {
      MissingExactly(ms[1..], implemented);
      assert forall m :: m in ms <==> m == ms[0] || m in ms[1..];
    }
  }

  /** An implementation that already has every method needs no stub. */
  lemma {:induction false} NothingMissing(ms: seq<Method>, implemented: seq<string>)
    requires forall i :: 0 <= i < |ms| ==> ms[i].ident in implemented
    ensures Missing(ms, implemented) == []
    decreases |ms|
  {
    if ms != [] { NothingMissing(ms[1..], implemented); }
  }
}
