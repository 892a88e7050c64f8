/** What the parameter-list parser promises about lists as they are written in Go source:
    spaces around identifiers, types and commas do not matter, identifier-only
    segments take the type of the next typed segment, and a list without any typed segment
    is read as a list of types. */
module ParamListProps {
  import opened GoStrings
  import opened Types
  import opened ParamList

  /** A segment as written: a first word and, when the segment is typed, a second word. */
  datatype Seg = Seg(first: string, second: string)

  /** The number of spaces written before a segment, inside it (beyond the one space that
      separates its two words) and after it. Only the space character is drawn: the two
      words of a segment are split at a space alone, so a tab there does not separate them. */
  datatype Pad = Pad(before: nat, between: nat, after: nat)

  predicate WellFormed(g: Seg) {
    IsWord(g.first) && (g.second == "" || IsWord(g.second))
  }

  function Core(g: Seg, between: nat): string {
    if g.second == "" then g.first else g.first + Spaces(between + 1) + g.second
  }

  function SegText(g: Seg, p: Pad): string {
    Spaces(p.before) + Core(g, p.between) + Spaces(p.after)
  }

  function Texts(gs: seq<Seg>, pads: seq<Pad>): (r: seq<string>)
    requires |pads| == |gs|
    ensures |r| == |gs|
  {
    seq(|gs|, i requires 0 <= i < |gs| => SegText(gs[i], pads[i]))
  }

  /** The list text `( seg , seg , ... )` with the given padding. */
  function Render(gs: seq<Seg>, pads: seq<Pad>): string
    requires |pads| == |gs|
  {
    "(" + JoinWith(Texts(gs, pads), ",") + ")"
  }

  /** The second word of the first typed segment at or after `k`, or "". */
  function NextSecond(gs: seq<Seg>, k: nat): string
    decreases |gs| - k
  {
    if k >= |gs| then "" else if gs[k].second != "" then gs[k].second else NextSecond(gs, k + 1)
  }

  predicate SomeTyped(gs: seq<Seg>) {
    exists i :: 0 <= i < |gs| && gs[i].second != ""
  }

  /** The parameters a list of segments means in Go: with a typed segment somewhere, first
      words are identifiers and each takes the next type; otherwise first words are types. */
  function Expected(gs: seq<Seg>): (r: seq<Param>)
    ensures |r| == |gs|
  {
    if SomeTyped(gs) then seq(|gs|, i requires 0 <= i < |gs| => Param(gs[i].first, NextSecond(gs, i)))
    else seq(|gs|, i requires 0 <= i < |gs| => Param("", gs[i].first))
  }

  lemma WordFacts(w: string)
    requires IsWord(w)
    ensures ' ' !in w && ',' !in w && !IsSpace(w[0]) && !IsSpace(w[|w| - 1])
  {
    assert IsSpace(' ');
  }

  lemma CoreFacts(g: Seg, b: nat)
    requires WellFormed(g)
    ensures var c := Core(g, b); c != [] && !IsSpace(c[0]) && !IsSpace(c[|c| - 1]) && ',' !in c
  {
    WordFacts(g.first);
    if g.second != "" {
      WordFacts(g.second);
      var c := Core(g, b);
      assert c[0] == g.first[0];
      assert c[|c| - 1] == g.second[|g.second| - 1];
      var sp := Spaces(b + 1);
      assert forall k :: 0 <= k < |sp| ==> sp[k] != ',';
    }
  }

  lemma SegTrimLeft(g: Seg, p: Pad)
    requires WellFormed(g)
    ensures TrimLeft(SegText(g, p)) == SegText(g, p.(before := 0))
    ensures !AllSpace(SegText(g, p))
  {
    var c := Core(g, p.between);
    CoreFacts(g, p.between);
    var tail := c + Spaces(p.after);
    assert SegText(g, p) == Spaces(p.before) + tail;
    TrimLeftPadded(p.before, tail);
    assert tail[0] == c[0];
    assert SegText(g, p.(before := 0)) == tail;
    assert SegText(g, p)[p.before] == c[0];
  }

  lemma SegTrimRight(g: Seg, p: Pad)
    requires WellFormed(g)
    ensures TrimRight(SegText(g, p)) == SegText(g, p.(after := 0))
    ensures !AllSpace(SegText(g, p))
  {
    var c := Core(g, p.between);
    CoreFacts(g, p.between);
    var head := Spaces(p.before) + c;
    assert SegText(g, p) == head + Spaces(p.after);
    TrimRightPadded(head, p.after);
    assert head[|head| - 1] == c[|c| - 1];
    assert SegText(g, p.(after := 0)) == head;
    assert SegText(g, p)[p.before] == c[0];
  }

  lemma SegNoComma(g: Seg, p: Pad)
    requires WellFormed(g)
    ensures ',' !in SegText(g, p)
  {
    CoreFacts(g, p.between);
    assert forall k :: 0 <= k < p.before ==> Spaces(p.before)[k] != ',';
    assert forall k :: 0 <= k < p.after ==> Spaces(p.after)[k] != ',';
  }

  /** How the parser reads one padded segment. */
  lemma SegPiece(g: Seg, p: Pad)
    requires WellFormed(g)
    ensures TrimSpace(SegText(g, p)) == Core(g, p.between)
    ensures PieceOf(SegText(g, p)) == Piece(g.first, g.second, g.second != "")
  {
    var c := Core(g, p.between);
    CoreFacts(g, p.between);
    TrimSpacePadded(p.before, c, p.after);
    WordFacts(g.first);
    TrimSpaceOfTrimmed(g.first);
    if g.second == "" {
      CutAtSpec(c, ' ');
    } else {
      WordFacts(g.second);
      var rest := Spaces(p.between) + g.second;
      assert c == g.first + [' '] + rest;
      CutAfterWord(g.first, ' ', rest);
      assert rest == Spaces(p.between) + g.second + Spaces(0);
      TrimSpacePadded(p.between, g.second, 0);
    }
  }

  lemma TextsUpdate(gs: seq<Seg>, pads: seq<Pad>, k: nat, p: Pad)
    requires |pads| == |gs| && k < |gs|
    ensures Texts(gs, pads)[k := SegText(gs[k], p)] == Texts(gs, pads[k := p])
  {
  }

  /** The padding with nothing before the first segment and nothing after the last. */
  function Trimmed(pads: seq<Pad>): (r: seq<Pad>)
    requires |pads| >= 1
    ensures |r| == |pads|
  {
    var left := pads[0 := pads[0].(before := 0)];
    left[|pads| - 1 := left[|pads| - 1].(after := 0)]
  }

  lemma TrimLeftRendered(gs: seq<Seg>, pads: seq<Pad>)
    requires |gs| >= 1 && |pads| == |gs| && forall i :: 0 <= i < |gs| ==> WellFormed(gs[i])
    ensures TrimLeft(JoinWith(Texts(gs, pads), ","))
         == JoinWith(Texts(gs, pads[0 := pads[0].(before := 0)]), ",")
  {
    var ts := Texts(gs, pads);
    var p := pads[0].(before := 0);
    assert ts[0] == SegText(gs[0], pads[0]);
    SegTrimLeft(gs[0], pads[0]);
    JoinTrimLeft(ts, ",");
    TextsUpdate(gs, pads, 0, p);
    assert ts[0 := TrimLeft(ts[0])] == Texts(gs, pads[0 := p]);
  }

  lemma TrimRightRendered(gs: seq<Seg>, pads: seq<Pad>)
    requires |gs| >= 1 && |pads| == |gs| && forall i :: 0 <= i < |gs| ==> WellFormed(gs[i])
    ensures TrimRight(JoinWith(Texts(gs, pads), ","))
         == JoinWith(Texts(gs, pads[|gs| - 1 := pads[|gs| - 1].(after := 0)]), ",")
  {
    var n := |gs|;
    var ts := Texts(gs, pads);
    var p := pads[n - 1].(after := 0);
    assert ts[n - 1] == SegText(gs[n - 1], pads[n - 1]);
    SegTrimRight(gs[n - 1], pads[n - 1]);
    JoinTrimRight(ts, ",");
    TextsUpdate(gs, pads, n - 1, p);
    assert ts[n - 1 := TrimRight(ts[n - 1])] == Texts(gs, pads[n - 1 := p]);
  }

  /** Trimming the whole inner text only trims the outer ends of the first and last segment. */
  lemma TrimRendered(gs: seq<Seg>, pads: seq<Pad>)
    requires |gs| >= 1 && |pads| == |gs| && forall i :: 0 <= i < |gs| ==> WellFormed(gs[i])
    ensures TrimSpace(JoinWith(Texts(gs, pads), ",")) == JoinWith(Texts(gs, Trimmed(pads)), ",")
  {
    var left := pads[0 := pads[0].(before := 0)];
    TrimLeftRendered(gs, pads);
    TrimRightRendered(gs, left);
  }

  /** The inner text of a rendered list splits into the trimmed segment texts. */
  lemma SegmentsOfRender(gs: seq<Seg>, pads: seq<Pad>)
    requires |gs| >= 1 && |pads| == |gs| && forall i :: 0 <= i < |gs| ==> WellFormed(gs[i])
    ensures Render(gs, pads) != "(" && Render(gs, pads) != ""
    ensures Segments(Render(gs, pads)) == Texts(gs, Trimmed(pads))
  {
    var src := Render(gs, pads);
    var inner := JoinWith(Texts(gs, pads), ",");
    assert src[1..|src| - 1] == inner;
    TrimRendered(gs, pads);
    var tp := Trimmed(pads);
    var ts := Texts(gs, tp);
    forall i | 0 <= i < |ts| ensures ',' !in ts[i] { SegNoComma(gs[i], tp[i]); }
    SplitJoin(ts, ',');
  }

  /** The piece the parser reads from a well-formed segment. */
  function Meaning(g: Seg): Piece {
    Piece(g.first, g.second, g.second != "")
  }

  lemma PiecesOfTexts(gs: seq<Seg>, tp: seq<Pad>)
    requires |tp| == |gs| && forall i :: 0 <= i < |gs| ==> WellFormed(gs[i])
    ensures forall i :: 0 <= i < |gs| ==> Pieces(Texts(gs, tp))[i] == Meaning(gs[i])
    ensures forall i :: 0 <= i < |gs| ==> gs[i].second == "" ==> TrimSpace(Texts(gs, tp)[i]) == gs[i].first
  {
    var ts := Texts(gs, tp);
    forall i | 0 <= i < |gs|
      ensures Pieces(ts)[i] == Meaning(gs[i])
      ensures gs[i].second == "" ==> TrimSpace(ts[i]) == gs[i].first
    {
      PiecesIndex(ts, i);
      SegPiece(gs[i], tp[i]);
    }
  }

  lemma {:induction false} NextTypeOfSegs(pcs: seq<Piece>, gs: seq<Seg>, k: nat)
    requires |pcs| == |gs|
    requires forall i :: 0 <= i < |gs| ==> pcs[i] == Meaning(gs[i])
    ensures NextType(pcs, k) == NextSecond(gs, k)
    decreases |gs| - k
  {
    if k < |gs| { NextTypeOfSegs(pcs, gs, k + 1); }
  }

  lemma AnyTypedOfSegs(pcs: seq<Piece>, gs: seq<Seg>)
    requires |pcs| == |gs|
    requires forall i :: 0 <= i < |gs| ==> pcs[i] == Meaning(gs[i])
    ensures AnyTyped(pcs) <==> SomeTyped(gs)
  {
    if SomeTyped(gs) {
      var i :| 0 <= i < |gs| && gs[i].second != "";
      assert pcs[i].typed;
    }
  }

  lemma NamedOfSegs(pcs: seq<Piece>, gs: seq<Seg>)
    requires |pcs| == |gs| && SomeTyped(gs)
    requires forall i :: 0 <= i < |gs| ==> pcs[i] == Meaning(gs[i])
    ensures NamedSpec(pcs) == Expected(gs)
  {
    forall i | 0 <= i < |gs| ensures NextType(pcs, i) == NextSecond(gs, i) {
      NextTypeOfSegs(pcs, gs, i);
    }
  }

  lemma PositionalOfSegs(ts: seq<string>, gs: seq<Seg>)
    requires |ts| == |gs| && !SomeTyped(gs)
    requires forall i :: 0 <= i < |gs| ==> gs[i].second == "" ==> TrimSpace(ts[i]) == gs[i].first
    ensures PositionalSpec(ts) == Expected(gs)
  {
  }

  /** Reading a rendered list gives the parameters the segments mean, whatever the number of
      spaces around its words. */
  lemma ParseRendered(gs: seq<Seg>, pads: seq<Pad>)
    requires |gs| >= 1 && |pads| == |gs| && forall i :: 0 <= i < |gs| ==> WellFormed(gs[i])
    ensures Render(gs, pads) != "("
    ensures ParamsSpec(Render(gs, pads)) == Expected(gs)
  {
    SegmentsOfRender(gs, pads);
    var tp := Trimmed(pads);
    var ts := Texts(gs, tp);
    PiecesOfTexts(gs, tp);
    var pcs := Pieces(ts);
    SegPiece(gs[0], tp[0]);
    CoreFacts(gs[0], tp[0].between);
    assert ts[0] != "";
    AnyTypedOfSegs(pcs, gs);
    if SomeTyped(gs) {
      NamedOfSegs(pcs, gs);
    } else {
      PositionalOfSegs(ts, gs);
    }
  }

  /** A named list whose last segment has no type (`(a int, b)`) leaves that parameter with
      the empty type: there is no later type for it to take. */
  lemma TrailingUntyped(src: string)
    requires src != "(" && src != ""
    requires AnyTyped(Pieces(Segments(src)))
    requires !PieceOf(Segments(src)[|Segments(src)| - 1]).typed
    ensures |ParamsSpec(src)| == |Segments(src)|
    ensures ParamsSpec(src)[|Segments(src)| - 1].typ == ""
  {
    var parts := Segments(src);
    var n := |parts|;
    var pcs := Pieces(parts);
    assert ParamsSpec(src) == NamedSpec(pcs);
    PiecesIndex(parts, n - 1);
    assert NextType(pcs, n - 1) == NextType(pcs, n);
  }
}
