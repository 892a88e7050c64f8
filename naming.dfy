/** The naming helpers of contracts and the three read-only queries on parameter lists. */
module Naming {
  import opened GoStrings
  import opened Types

  const Suffix := "Repository"

  /** `Name`: the identifier without its `Repository` suffix, except that the bare
      identifier `Repository` keeps its name. */
  function Name(r: Repository): (n: string)
    ensures |r.ident| > 10 && HasSuffix(r.ident, Suffix) ==> n + Suffix == r.ident && n != ""
    ensures !(|r.ident| > 10 && HasSuffix(r.ident, Suffix)) ==> n == r.ident
    ensures n == "" <==> r.ident == ""
  {
    if |r.ident| > 10 && HasSuffix(r.ident, Suffix) then r.ident[..|r.ident| - 10] else r.ident
  }

  /** `QualifyString`: `s` prefixed by the name, unless the contract is the package's bare
      `Repository`. */
  function QualifyString(r: Repository, s: string): (q: string)
    ensures HasSuffix(q, s)
    ensures q == s <==> Name(r) == Suffix || r.ident == ""
    ensures q != s ==> q == Name(r) + s
  {
    var name := Name(r);
    if name == Suffix then s else name + s
  }

  /** `ImplName`: the identifier with its first character lower-cased and `Impl` appended;
      empty for an empty identifier. */
  function ImplName(r: Repository): (n: string)
    ensures n == "" <==> r.ident == ""
    ensures n != "" ==>
      |n| == |r.ident| + 4 && n[0] == LowerChar(r.ident[0])
      && n[1..|r.ident|] == r.ident[1..] && n[|r.ident|..] == "Impl"
  {
    if r.ident == "" then "" else ToLower([r.ident[0]]) + r.ident[1..] + "Impl"
  }

  /** `QualifiedName`: the package-qualified identifier. */
  function QualifiedName(r: Repository): (n: string)
    ensures r.pkg == "" ==> n == r.ident
    ensures r.pkg != "" ==> HasPrefix(n, r.pkg + ".") && n[|r.pkg| + 1..] == r.ident
  {
    if r.pkg == "" then r.ident else r.pkg + "." + r.ident
  }

  /** The implementation key forgets the case of the first letter: two contracts whose
      identifiers differ only there share an implementation. */
  lemma ImplNameCaseBlind(a: Repository, b: Repository)
    requires a.ident != "" && b.ident != ""
    ensures ImplName(a) == ImplName(b)
        <==> LowerChar(a.ident[0]) == LowerChar(b.ident[0]) && a.ident[1..] == b.ident[1..]
  {
    var na, nb := ImplName(a), ImplName(b);
    if na == nb {
      assert |a.ident| == |b.ident|;
      assert na[1..|a.ident|] == nb[1..|b.ident|];
    }
  }

  /** `HasCtx`: some parameter has type `context.Context`. */
  function HasCtx(ps: seq<Param>): (b: bool)
    ensures b <==> exists i :: 0 <= i < |ps| && ps[i].typ == "context.Context"
    decreases |ps|
  {
    if ps == [] then false
    else ps[0].typ == "context.Context" || (assert forall i :: 1 <= i < |ps| ==> ps[i] == ps[1..][i - 1]; HasCtx(ps[1..]))
  }

  /** `HasError`: some parameter has type `error`. */
  function HasError(ps: seq<Param>): (b: bool)
    ensures b <==> exists i :: 0 <= i < |ps| && ps[i].typ == "error"
    decreases |ps|
  {
    if ps == [] then false
    else ps[0].typ == "error" || (assert forall i :: 1 <= i < |ps| ==> ps[i] == ps[1..][i - 1]; HasError(ps[1..]))
  }

  /** `Named`: some parameter has an identifier. */
  function Named(ps: seq<Param>): (b: bool)
    ensures b <==> exists i :: 0 <= i < |ps| && ps[i].ident != ""
    decreases |ps|
  {
    if ps == [] then false
    else ps[0].ident != "" || (assert forall i :: 1 <= i < |ps| ==> ps[i] == ps[1..][i - 1]; Named(ps[1..]))
  }
}
