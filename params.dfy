/** The parameter-list parser: the text of a `( ... )` parameter or result list becomes a list
    of (identifier, type) pairs, with Go's grouped-type rule (`a, b bool` gives both `b` and
    `a` the type `bool`). */
module ParamList {
  import opened GoStrings
  import opened Types

  /** The text inside the parentheses when the list starts with one. On the lone text `(`
      the slice would be out of range, so that text is excluded by every caller. */
  function Inner(src: string): string
    requires src != "("
  {
    if src != "" && src[0] == '(' then src[1..|src| - 1] else src
  }

  /** The comma-separated segments of the trimmed inner text. */
  function Segments(src: string): seq<string>
    requires src != "("
  {
    Split(TrimSpace(Inner(src)), ',')
  }

  /** One segment as `parseNamedParams` reads it: the trimmed text before its first space,
      the trimmed text after it, and whether there was a space at all. */
  datatype Piece = Piece(ident: string, typ: string, typed: bool)

  function PieceOf(part: string): Piece {
    var cut := CutAt(TrimSpace(part), ' ');
    Piece(TrimSpace(cut.before), TrimSpace(cut.after), cut.found)
  }

  function Pieces(parts: seq<string>): (r: seq<Piece>)
    ensures |r| == |parts|
  {
    if parts == [] then [] else Pieces(parts[..|parts| - 1]) + [PieceOf(parts[|parts| - 1])]
  }

  lemma PiecesSnoc(parts: seq<string>, i: nat)
    requires i < |parts|
    ensures Pieces(parts[..i + 1]) == Pieces(parts[..i]) + [PieceOf(parts[i])]
  {
    assert parts[..i + 1][..i] == parts[..i];
  }

  lemma {:induction false} PiecesIndex(parts: seq<string>, i: nat)
    requires i < |parts|
    ensures Pieces(parts)[i] == PieceOf(parts[i])
    decreases |parts|
  {
    if i < |parts| - 1 {
      PiecesIndex(parts[..|parts| - 1], i);
    }
  }

  predicate AnyTyped(pcs: seq<Piece>) {
    exists i :: 0 <= i < |pcs| && pcs[i].typed
  }

  /** The type of the first typed piece at or after `k`, or "" when there is none. */
  function NextType(pcs: seq<Piece>, k: nat): string
    decreases |pcs| - k
  {
    if k >= |pcs| then "" else if pcs[k].typed then pcs[k].typ else NextType(pcs, k + 1)
  }

  /** Named lists: every segment keeps its identifier and takes the type that follows it. */
  function NamedSpec(pcs: seq<Piece>): (r: seq<Param>)
    ensures |r| == |pcs|
  {
    seq(|pcs|, i requires 0 <= i < |pcs| => Param(pcs[i].ident, NextType(pcs, i)))
  }

  /** Unnamed lists: every trimmed segment is a type. */
  function PositionalSpec(parts: seq<string>): (r: seq<Param>)
    ensures |r| == |parts|
  {
    seq(|parts|, i requires 0 <= i < |parts| => Param("", TrimSpace(parts[i])))
  }

  /** The parameters a list text denotes. */
  function ParamsSpec(src: string): (r: seq<Param>)
    requires src != "("
    ensures r == [] <==> src == "" || AllSpace(Inner(src))
    ensures r != [] ==> |r| == |Segments(src)|
  {
    if src == "" then []
    else
      var parts := Segments(src);
      var t := TrimSpace(Inner(src));
      TrimSpaceEmpty(Inner(src));
      if |parts| == 1 && parts[0] == "" then
        JoinSplit(t, ',');
        []
      else
        assert t != [] by { JoinSplit(t, ','); }
        if AnyTyped(Pieces(parts)) then NamedSpec(Pieces(parts)) else PositionalSpec(parts)
  }

  /** A run of untyped segments takes the type of the typed segment that closes it. */
  lemma {:induction false} NextTypeSkipsUntyped(pcs: seq<Piece>, j: nat, k: nat)
    requires j <= k <= |pcs|
    requires forall m :: j <= m < k ==> !pcs[m].typed
    ensures NextType(pcs, j) == NextType(pcs, k)
    decreases k - j
  {
    if j < k { NextTypeSkipsUntyped(pcs, j + 1, k); }
  }

  /** `parseParams` tests for a space by splitting at spaces. */
  lemma TypedIffSpace(part: string)
    ensures PieceOf(part).typed <==> |Split(TrimSpace(part), ' ')| > 1
  {
    SplitMoreThanOne(TrimSpace(part), ' ');
    CutAtSpec(TrimSpace(part), ' ');
  }

  /** `parseParams`. */
  method ParseParams(src: string) returns (ps: seq<Param>)
    requires src != "("
    ensures ps == ParamsSpec(src)
  {
    if src == "" {
      return [];
    }
    var s := src;
    if s[0] == '(' {
      s := s[1..|s| - 1];
    }
    assert s == Inner(src);
    var parts := Split(TrimSpace(s), ',');
    assert parts == Segments(src);
    if |parts| == 0 || (|parts| == 1 && parts[0] == "") {
      return [];
    }
    var named := AnyNamed(parts);
    if named {
      ps := ParseNamedParams(parts);
      return;
    }
    ps := ParsePositionalParams(parts);
  }

  /** The first loop of `parseParams`: whether some trimmed segment holds a space. */
  method AnyNamed(parts: seq<string>) returns (named: bool)
    ensures named == AnyTyped(Pieces(parts))
  {
    named := false;
    for i := 0 to |parts|
      invariant named <==> exists j :: 0 <= j < i && Pieces(parts)[j].typed
    {
      var part := TrimSpace(parts[i]);
      PiecesIndex(parts, i);
      TypedIffSpace(parts[i]);
      if named || |Split(part, ' ')| > 1 {
        named := true;
      }
    }
  }

  /** The unnamed branch of `parseParams`: each trimmed segment is a type. */
  method ParsePositionalParams(parts: seq<string>) returns (ps: seq<Param>)
    ensures ps == PositionalSpec(parts)
  {
    var params := new Param[|parts|](_ => Param("", ""));
    for i := 0 to |parts|
      invariant forall j :: 0 <= j < i ==> params[j] == Param("", TrimSpace(parts[j]))
    {
      params[i] := Param("", TrimSpace(parts[i]));
    }
    ps := params[..];
  }

  /** A typed piece at or after `j`: the type of `j` is already decided. */
  predicate Closed(pcs: seq<Piece>, j: nat) {
    exists k :: j <= k < |pcs| && pcs[k].typed
  }

  /** Reading more pieces does not change a type that is already decided. */
  lemma {:induction false} NextTypeAppend(pcs: seq<Piece>, pc: Piece, j: nat)
    requires Closed(pcs, j)
    ensures NextType(pcs + [pc], j) == NextType(pcs, j)
    ensures Closed(pcs + [pc], j)
    decreases |pcs| - j
  {
    var s := pcs + [pc];
    assert s[j] == pcs[j];
    if !pcs[j].typed {
      var k :| j <= k < |pcs| && pcs[k].typed;
      assert k != j;
      assert Closed(pcs, j + 1);
      NextTypeAppend(pcs, pc, j + 1);
    }
    var k :| j <= k < |pcs| && pcs[k].typed;
    assert s[k].typed;
  }

  /** `strings.Cut(part, " ")` on the trimmed segment, both halves trimmed. */
  method CutSegment(part: string) returns (ident: string, typ: string, hasType: bool)
    ensures Piece(ident, typ, hasType) == PieceOf(part)
  {
    var cut := CutAt(TrimSpace(part), ' ');
    ident, typ, hasType := TrimSpace(cut.before), TrimSpace(cut.after), cut.found;
  }

  /** `ps` with `ps[from..to]` given the type `typ`. */
  function Filled(ps: seq<Param>, from: nat, to: nat, typ: string): (r: seq<Param>)
    requires from <= to <= |ps|
    ensures |r| == |ps|
  {
    seq(|ps|, m requires 0 <= m < |ps| => if from <= m < to then Param(ps[m].ident, typ) else ps[m])
  }

  /** The back-filling loop of `parseNamedParams`: gives `params[from..to]` the type `typ`. */
  method FillType(params: array<Param>, from: nat, to: nat, typ: string)
    requires from <= to <= params.Length
    modifies params
    ensures params[..] == Filled(old(params[..]), from, to, typ)
  {
    for j := from to to
      invariant params[..] == Filled(old(params[..]), from, j, typ)
    {
      params[j] := Param(params[j].ident, typ);
    }
  }

  /** What `parseNamedParams` has stored for piece `j` after reading `seen`, while the
      untyped run starting at `untypedFrom` (if any) is still open. */
  function Stored(seen: seq<Piece>, untypedFrom: int, j: nat): Param
    requires j < |seen|
  {
    Param(seen[j].ident, if untypedFrom == -1 || j < untypedFrom then NextType(seen, j) else "")
  }

  /** The state of `parseNamedParams` after reading the pieces `seen` into `ps`. */
  predicate NamedState(ps: seq<Param>, seen: seq<Piece>, untypedFrom: int) {
    && |seen| <= |ps|
    && (-1 <= untypedFrom < |seen| || (seen == [] && untypedFrom == -1))
    && (forall j :: 0 <= j < |seen| ==> ps[j] == Stored(seen, untypedFrom, j))
    && (forall j :: 0 <= j < |seen| && (untypedFrom == -1 || j < untypedFrom) ==> Closed(seen, j))
    && (untypedFrom != -1 ==> forall j :: untypedFrom <= j < |seen| ==> !seen[j].typed)
  }

  /** Reading a typed piece closes the open run, if any. */
  lemma ReadTyped(ps: seq<Param>, seen: seq<Piece>, u: int, pc: Piece)
    requires NamedState(ps, seen, u) && |seen| < |ps| && pc.typed
    ensures u != -1 ==>
      NamedState(Filled(ps[|seen| := Param(pc.ident, pc.typ)], u, |seen|, pc.typ), seen + [pc], -1)
    ensures u == -1 ==> NamedState(ps[|seen| := Param(pc.ident, pc.typ)], seen + [pc], -1)
  {
    var i := |seen|;
    var seen' := seen + [pc];
    assert seen'[i].typed && NextType(seen', i) == pc.typ;
    forall j | 0 <= j < i && (u == -1 || j < u)
      ensures NextType(seen', j) == NextType(seen, j) && Closed(seen', j)
    {
      NextTypeAppend(seen, pc, j);
    }
    if u != -1 {
      forall m | u <= m < i
        ensures NextType(seen', m) == pc.typ && Closed(seen', m)
      {
        NextTypeSkipsUntyped(seen', m, i);
      }
      var ps' := Filled(ps[i := Param(pc.ident, pc.typ)], u, i, pc.typ);
      forall j | 0 <= j <= i
        ensures ps'[j] == Stored(seen', -1, j)
      {
        if j < i { assert seen'[j] == seen[j]; }
      }
    } else {
      var ps' := ps[i := Param(pc.ident, pc.typ)];
      forall j | 0 <= j <= i
        ensures ps'[j] == Stored(seen', -1, j)
      {
        if j < i { assert seen'[j] == seen[j]; }
      }
    }
  }

  /** Reading an untyped piece stores the empty type and opens a run if none is open. */
  lemma ReadUntyped(ps: seq<Param>, seen: seq<Piece>, u: int, pc: Piece)
    requires NamedState(ps, seen, u) && |seen| < |ps| && !pc.typed
    ensures NamedState(ps[|seen| := Param(pc.ident, "")], seen + [pc], if u == -1 then |seen| else u)
  {
    var i := |seen|;
    var seen' := seen + [pc];
    var u' := if u == -1 then i else u;
    forall j | 0 <= j < i && (u == -1 || j < u)
      ensures NextType(seen', j) == NextType(seen, j) && Closed(seen', j)
    {
      NextTypeAppend(seen, pc, j);
    }
    forall j | 0 <= j <= i
      ensures ps[i := Param(pc.ident, "")][j] == Stored(seen', u', j)
    {
      if j < i { assert seen'[j] == seen[j]; }
    }
  }

  /** At the end of the input an open run has no type to take. */
  lemma ReadAll(ps: seq<Param>, seen: seq<Piece>, u: int)
    requires NamedState(ps, seen, u) && |seen| == |ps|
    ensures ps == NamedSpec(seen)
  {
    if u != -1 {
      forall m | u <= m < |seen|
        ensures NextType(seen, m) == ""
      {
        NextTypeSkipsUntyped(seen, m, |seen|);
      }
    }
  }

  /** `parseNamedParams`: identifiers in order; an untyped run is back-filled with the type
      of the segment that ends it, and a trailing untyped run keeps the empty type. */
  method ParseNamedParams(parts: seq<string>) returns (ps: seq<Param>)
    ensures ps == NamedSpec(Pieces(parts))
  {
    var params := new Param[|parts|](_ => Param("", ""));
    var untypedFrom := -1;
    ghost var seen: seq<Piece> := [];
    for i := 0 to |parts|
      invariant |seen| == i && seen == Pieces(parts[..i])
      invariant NamedState(params[..], seen, untypedFrom)
    {
      var ident, typ, hasType := CutSegment(parts[i]);
      ghost var pc := Piece(ident, typ, hasType);
      PiecesSnoc(parts, i);
      ghost var snapshot := params[..];
      params[i] := Param(ident, "");
      if hasType {
        params[i] := Param(ident, typ);
        assert params[..] == snapshot[i := Param(ident, typ)];
        ReadTyped(snapshot, seen, untypedFrom, pc);
        if untypedFrom != -1 {
          FillType(params, untypedFrom, i, typ);
          untypedFrom := -1;
        }
      } else {
        assert params[..] == snapshot[i := Param(ident, "")];
        ReadUntyped(snapshot, seen, untypedFrom, pc);
        if untypedFrom == -1 {
          untypedFrom := i;
        }
      }
      seen := seen + [pc];
    }
    assert parts[..|parts|] == parts;
    ReadAll(params[..], seen, untypedFrom);
    ps := params[..];
  }
}
