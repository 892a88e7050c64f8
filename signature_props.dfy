/** What the stub writer and the contract parser promise each other: a parameter list that
    `ParamsSrc` writes into a stub reads back, through `parseParams`, as the qualified list. */
module SignatureProps {
  import opened GoStrings
  import opened Types
  import opened ParamList
  import opened ParamListProps
  import opened Naming
  import opened Signature

  /** Prefixing the first part of a join prefixes the whole join. */
  lemma JoinConsPrefix(p: string, a: string, rest: seq<string>, sep: string)
    ensures JoinWith([p + a] + rest, sep) == p + JoinWith([a] + rest, sep)
  {
    if rest != [] {
      assert ([p + a] + rest)[1..] == rest;
      assert ([a] + rest)[1..] == rest;
    }
  }

  /** Joining with `", "` is joining with `","` after a space is put before every part but
      the first. */
  lemma {:induction false} JoinSpaced(xs: seq<string>, ys: seq<string>)
    requires |xs| == |ys| >= 1 && ys[0] == xs[0]
    requires forall i :: 1 <= i < |xs| ==> ys[i] == " " + xs[i]
    ensures JoinWith(xs, ", ") == JoinWith(ys, ",")
    decreases |xs|
  {
    if |xs| > 1 {
      var ys' := [xs[1]] + ys[2..];
      JoinSpaced(xs[1..], ys');
      assert ys[1..] == [" " + xs[1]] + ys[2..];
      JoinConsPrefix(" ", xs[1], ys[2..], ",");
    }
  }

  /** The segment `ParamsSrc` writes for the `i`-th parameter, as the parser sees it. */
  function SegOf(qs: seq<Param>, i: nat): Seg
    requires i < |qs|
  {
    if qs[i].ident == "" then Seg(qs[i].typ, "")
    else if i < |qs| - 1 && qs[i].typ == qs[i + 1].typ then Seg(qs[i].ident, "")
    else Seg(qs[i].ident, qs[i].typ)
  }

  function SegsOf(qs: seq<Param>): (gs: seq<Seg>)
    ensures |gs| == |qs|
  {
    seq(|qs|, i requires 0 <= i < |qs| => SegOf(qs, i))
  }

  /** One space before every segment but the first, as `", "` separates them. */
  function PadsOf(n: nat): (pads: seq<Pad>)
    ensures |pads| == n
  {
    seq(n, i requires 0 <= i < n => Pad(if i == 0 then 0 else 1, 0, 0))
  }

  /** Types and identifiers are single words (an identifier may be absent). */
  predicate Words(qs: seq<Param>) {
    forall i :: 0 <= i < |qs| ==> IsWord(qs[i].typ) && (qs[i].ident == "" || IsWord(qs[i].ident))
  }

  predicate FullyNamed(qs: seq<Param>) {
    forall i :: 0 <= i < |qs| ==> qs[i].ident != ""
  }

  /** No identifier at all, and no two neighbours of the same type. */
  predicate UnnamedDistinct(qs: seq<Param>) {
    forall i :: 0 <= i < |qs| ==> qs[i].ident == "" && (i < |qs| - 1 ==> qs[i].typ != qs[i + 1].typ)
  }

  /** The parameter lists the round trip holds for. */
  predicate Writable(qs: seq<Param>) {
    Words(qs) && (FullyNamed(qs) || UnnamedDistinct(qs))
  }

  /** One parameter as written is the core of its segment. */
  lemma CoreWritten(qs: seq<Param>, i: nat)
    requires i < |qs| && Writable(qs)
    ensures WellFormed(SegOf(qs, i)) && Core(SegOf(qs, i), 0) == Written(qs, i)
  {
    assert IsWord(qs[i].typ);
    if qs[i].ident == "" {
      assert !FullyNamed(qs);
      assert i < |qs| - 1 ==> qs[i].typ != qs[i + 1].typ;
    } else if !(i < |qs| - 1 && qs[i].typ == qs[i + 1].typ) {
      assert Spaces(1) == " ";
    }
  }

  /** The written list is the rendered list of its segments. */
  lemma SourceIsRender(qs: seq<Param>)
    requires |qs| >= 1 && Writable(qs)
    ensures "(" + Source(qs) + ")" == Render(SegsOf(qs), PadsOf(|qs|))
    ensures forall i :: 0 <= i < |qs| ==> WellFormed(SegsOf(qs)[i])
  {
    var gs, pads := SegsOf(qs), PadsOf(|qs|);
    var xs, ys := WrittenAll(qs), Texts(gs, pads);
    forall i | 0 <= i < |qs|
      ensures WellFormed(gs[i])
      ensures ys[i] == if i == 0 then xs[i] else " " + xs[i]
    {
      CoreWritten(qs, i);
      assert ys[i] == Spaces(pads[i].before) + Core(gs[i], 0) + Spaces(0);
      if i > 0 {
        assert Spaces(1) == " ";
      }
    }
    JoinSpaced(xs, ys);
  }

  /** Every identifier-only segment takes the type of its own parameter: it shares it with
      the next parameter, and the last segment is always typed. */
  lemma {:induction false} NextSecondOfNamed(qs: seq<Param>, k: nat)
    requires k < |qs| && Words(qs) && FullyNamed(qs)
    ensures NextSecond(SegsOf(qs), k) == qs[k].typ
    decreases |qs| - k
  {
    var gs := SegsOf(qs);
    if gs[k].second == "" {
      NextSecondOfNamed(qs, k + 1);
    }
  }

  lemma NamedExpected(qs: seq<Param>)
    requires |qs| >= 1 && Words(qs) && FullyNamed(qs)
    ensures Expected(SegsOf(qs)) == qs
  {
    var gs := SegsOf(qs);
    assert gs[|qs| - 1].second != "";
    forall i | 0 <= i < |qs| ensures NextSecond(gs, i) == qs[i].typ {
      NextSecondOfNamed(qs, i);
    }
  }

  lemma UnnamedExpected(qs: seq<Param>)
    requires UnnamedDistinct(qs)
    ensures Expected(SegsOf(qs)) == qs
  {
    assert !SomeTyped(SegsOf(qs));
  }

  /** Reading back what `ParamsSrc` writes gives the list it wrote. */
  lemma SourceParses(qs: seq<Param>)
    requires |qs| >= 1 && Writable(qs)
    ensures "(" + Source(qs) + ")" != "("
    ensures ParamsSpec("(" + Source(qs) + ")") == qs
  {
    SourceIsRender(qs);
    ParseRendered(SegsOf(qs), PadsOf(|qs|));
    if FullyNamed(qs) {
      NamedExpected(qs);
    } else {
      UnnamedExpected(qs);
    }
  }

  /** `Qualify` keeps a list writable: it names a list completely or leaves it unnamed. */
  lemma QualifiedWritable(ps: seq<Param>)
    requires forall i :: 0 <= i < |ps| ==> IsWord(ps[i].typ) && (ps[i].ident == "" || IsWord(ps[i].ident))
    requires Named(Qualified(ps)) || forall i :: 0 <= i < |ps| - 1 ==> ps[i].typ != ps[i + 1].typ
    ensures Writable(Qualified(ps))
  {
    var qs := Qualified(ps);
    if HasCtx(ps) || HasError(ps) || Named(ps) {
      QualifiedNamed(ps);
    } else {
      QualifiedUntouched(ps);
    }
    assert IsWord("ctx") && IsWord("err") && IsWord("_");
  }

  /** The parameter list of a stub method, read back by the contract parser, is the
      contract's list after `Qualify`. */
  lemma ParamsRoundTrip(ps: seq<Param>)
    requires |ps| >= 1
    requires forall i :: 0 <= i < |ps| ==> IsWord(ps[i].typ) && (ps[i].ident == "" || IsWord(ps[i].ident))
    requires Named(Qualified(ps)) || forall i :: 0 <= i < |ps| - 1 ==> ps[i].typ != ps[i + 1].typ
    ensures ParamsSpec("(" + Source(Qualified(ps)) + ")") == Qualified(ps)
  {
    QualifiedWritable(ps);
    SourceParses(Qualified(ps));
  }

  /** A named result list is written in parentheses and reads back as itself. */
  lemma NamedReturnsRoundTrip(ps: seq<Param>)
    requires |ps| >= 1 && Named(Qualified(ps))
    requires forall i :: 0 <= i < |ps| ==> IsWord(ps[i].typ) && (ps[i].ident == "" || IsWord(ps[i].ident))
    ensures ReturnsSource(ps) != "(" && ParamsSpec(ReturnsSource(ps)) == Qualified(ps)
  {
    ParamsRoundTrip(ps);
  }

  /** An unnamed list of two parameters of one type is written as its type after a comma
      separator with nothing before it: the "identifier only" rule applies to the empty
      identifier too. */
  lemma UnnamedRepeatedType(t: string)
    ensures Source([Param("", t), Param("", t)]) == ", " + t
  {
    var ps := [Param("", t), Param("", t)];
    assert Written(ps, 0) == "" && Written(ps, 1) == t;
    assert WrittenAll(ps) == ["", t];
    assert JoinWith(["", t], ", ") == "" + ", " + JoinWith(["", t][1..], ", ");
    assert ["", t][1..] == [t];
  }

  /** An unnamed result list is written without parentheses, however many results it has. */
  lemma UnnamedReturnsBare(ps: seq<Param>)
    requires !HasCtx(ps) && !HasError(ps) && !Named(ps)
    ensures ReturnsSource(ps) == Source(ps)
  {
  }

  /** A contract method the implementation lacks, whose parameter list is a named list with
      an untyped last segment, makes `NewMethods` panic. */
  lemma TrailingUntypedPanics(r: RepositoryImpl, m: Method, src: string)
    requires m in r.repo.methods && m.ident !in r.implMethods
    requires src != "(" && src != "" && m.params == ParamsSpec(src)
    requires AnyTyped(Pieces(Segments(src)))
    requires !PieceOf(Segments(src)[|Segments(src)| - 1]).typed
    ensures NewMethodsResult(r) == Err(Panic(IndexPanic))
  {
    TrailingUntyped(src);
    assert !Typed(m.params) by {
      assert m.params[|Segments(src)| - 1].typ == "";
    }
    NewMethodsPanics(r);
  }
}
