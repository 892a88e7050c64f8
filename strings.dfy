/** The parts of Go's `strings` package that the generator relies on, over `seq<char>`. */
module GoStrings {

  /** Unicode white space as `strings.TrimSpace` sees it, restricted to the Latin-1 range. */
  predicate IsSpace(c: char) {
    c == ' ' || '\t' <= c <= '\r' || c == '\U{0085}' || c == '\U{00A0}'
  }

  predicate AllSpace(s: string) {
    forall i :: 0 <= i < |s| ==> IsSpace(s[i])
  }

  /** A word is a non-empty string that contains no white space and no comma. */
  predicate IsWord(s: string) {
    s != [] && forall i :: 0 <= i < |s| ==> !IsSpace(s[i]) && s[i] != ','
  }

  function Spaces(n: nat): (r: string)
    ensures |r| == n && AllSpace(r) && (forall i :: 0 <= i < n ==> r[i] == ' ')
  {
    if n == 0 then "" else " " + Spaces(n - 1)
  }

  predicate HasPrefix(s: string, p: string) {
    |p| <= |s| && s[..|p|] == p
  }

  predicate HasSuffix(s: string, p: string) {
    |p| <= |s| && s[|s| - |p|..] == p
  }

  /** A concatenation starts with its first part and ends with its second. */
  lemma Affixes(a: string, b: string)
    ensures HasPrefix(a + b, a) && HasSuffix(a + b, b)
  {
    assert (a + b)[..|a|] == a;
    assert (a + b)[|a + b| - |b|..] == b;
  }

  /** The last element of a concatenation with a non-empty right part, and what precedes it. */
  lemma AppendInit<T>(a: seq<T>, b: seq<T>)
    requires b != []
    ensures (a + b)[..|a + b| - 1] == a + b[..|b| - 1] && (a + b)[|a + b| - 1] == b[|b| - 1]
  {
  }

  lemma Regrouped(a: string, b: string, c: string)
    ensures a + b + c == a + (b + c)
  {
  }

  /** `strings.TrimLeft(s, space)`: drops the leading white space and nothing else. */
  function TrimLeft(s: string): (r: string)
    ensures |r| <= |s|
  {
    if s != [] && IsSpace(s[0]) then TrimLeft(s[1..]) else s
  }

  /** TrimLeft keeps a suffix and removes only white space. */
  lemma {:induction false} TrimLeftSuffix(s: string)
    ensures TrimLeft(s) == [] || !IsSpace(TrimLeft(s)[0])
    ensures TrimLeft(s) == s[|s| - |TrimLeft(s)|..]
    ensures forall i :: 0 <= i < |s| - |TrimLeft(s)| ==> IsSpace(s[i])
    decreases |s|
  {
    if s != [] && IsSpace(s[0]) { TrimLeftSuffix(s[1..]); }
  }

  /** `strings.TrimRight(s, space)`: drops the trailing white space and nothing else. */
  function TrimRight(s: string): (r: string)
    ensures |r| <= |s|
  {
    if s != [] && IsSpace(s[|s| - 1]) then TrimRight(s[..|s| - 1]) else s
  }

  /** TrimRight keeps a prefix and removes only white space. */
  lemma {:induction false} TrimRightPrefix(s: string)
    ensures TrimRight(s) == [] || !IsSpace(TrimRight(s)[|TrimRight(s)| - 1])
    ensures TrimRight(s) == s[..|TrimRight(s)|]
    ensures forall i :: |TrimRight(s)| <= i < |s| ==> IsSpace(s[i])
    decreases |s|
  {
    if s != [] && IsSpace(s[|s| - 1]) { TrimRightPrefix(s[..|s| - 1]); }
  }

  /** `strings.TrimSpace`. */
  function TrimSpace(s: string): string {
    TrimRight(TrimLeft(s))
  }

  /** TrimSpace leaves no white space at either end. */
  lemma TrimSpaceEnds(s: string)
    ensures var r := TrimSpace(s); r == [] || (!IsSpace(r[0]) && !IsSpace(r[|r| - 1]))
  {
    var l := TrimLeft(s);
    TrimLeftSuffix(s);
    TrimRightPrefix(l);
  }

  /** TrimSpace empties exactly the strings made of white space. */
  lemma TrimSpaceEmpty(s: string)
    ensures TrimSpace(s) == [] <==> AllSpace(s)
  {
    var l := TrimLeft(s);
    TrimLeftSuffix(s);
    TrimRightPrefix(l);
    assert l != [] ==> !AllSpace(s) by {
      if l != [] { assert s[|s| - |l|] == l[0]; }
    }
  }

  lemma TrimLeftPadded(n: nat, x: string)
    ensures TrimLeft(Spaces(n) + x) == TrimLeft(x)
  {
    if n > 0 {
      var t := Spaces(n) + x;
      assert t[0] == ' ' && t[1..] == Spaces(n - 1) + x;
      assert TrimLeft(t) == TrimLeft(t[1..]);
      TrimLeftPadded(n - 1, x);
    } else {
      assert Spaces(n) + x == x;
    }
  }

  lemma TrimRightPadded(x: string, n: nat)
    ensures TrimRight(x + Spaces(n)) == TrimRight(x)
  {
    if n > 0 {
      var t := x + Spaces(n);
      assert t[|t| - 1] == ' ' && t[..|t| - 1] == x + Spaces(n - 1);
      assert TrimRight(t) == TrimRight(t[..|t| - 1]);
      TrimRightPadded(x, n - 1);
    } else {
      assert x + Spaces(n) == x;
    }
  }

  /** Padding a string that starts and ends with a non-space with spaces is undone by TrimSpace. */
  lemma TrimSpacePadded(a: nat, w: string, b: nat)
    requires w != [] && !IsSpace(w[0]) && !IsSpace(w[|w| - 1])
    ensures TrimSpace(Spaces(a) + w + Spaces(b)) == w
  {
    var tail := w + Spaces(b);
    var s := Spaces(a) + w + Spaces(b);
    assert s == Spaces(a) + tail;
    TrimLeftPadded(a, tail);
    assert TrimLeft(tail) == tail by { assert tail[0] == w[0]; }
    TrimRightPadded(w, b);
    assert TrimRight(w) == w;
    calc {
      TrimSpace(s);
      TrimRight(TrimLeft(s));
      TrimRight(TrimLeft(tail));
      TrimRight(tail);
      w;
    }
  }

  lemma TrimSpaceOfTrimmed(w: string)
    requires w == [] || (!IsSpace(w[0]) && !IsSpace(w[|w| - 1]))
    ensures TrimSpace(w) == w
  {
  }

  /** `strings.Split(s, string(c))` for a one-character separator. */
  function Split(s: string, c: char): (r: seq<string>)
    ensures |r| >= 1
    decreases |s|
  {
    if s == [] then [""]
    else
      var rest := Split(s[1..], c);
      if s[0] == c then [""] + rest
      else [[s[0]] + rest[0]] + rest[1..]
  }

  /** No piece of a split contains the separator. */
  lemma {:induction false} SplitPieces(s: string, c: char)
    ensures forall i :: 0 <= i < |Split(s, c)| ==> c !in Split(s, c)[i]
    decreases |s|
  {
    if s != [] { SplitPieces(s[1..], c); }
  }

  /** `strings.Join` with an arbitrary separator. */
  function JoinWith(parts: seq<string>, sep: string): string
    decreases |parts|
  {
    if |parts| == 0 then ""
    else if |parts| == 1 then parts[0]
    else parts[0] + sep + JoinWith(parts[1..], sep)
  }

  lemma {:induction false} SplitMoreThanOne(s: string, c: char)
    ensures |Split(s, c)| > 1 <==> c in s
    decreases |s|
  {
    if s != [] {
      SplitMoreThanOne(s[1..], c);
      assert c in s <==> s[0] == c || c in s[1..];
    }
  }

  lemma SplitWithout(s: string, c: char)
    requires c !in s
    ensures Split(s, c) == [s]
  {
    SplitMoreThanOne(s, c);
    var r := Split(s, c);
    JoinSplit(s, c);
  }

  /** Joining the pieces of a split with the separator gives the string back. */
  lemma {:induction false} JoinSplit(s: string, c: char)
    ensures JoinWith(Split(s, c), [c]) == s
    decreases |s|
  {
    if s != [] {
      var rest := Split(s[1..], c);
      JoinSplit(s[1..], c);
      if s[0] == c {
        assert JoinWith([""] + rest, [c]) == "" + [c] + JoinWith(rest, [c]);
      } else {
        var r := [[s[0]] + rest[0]] + rest[1..];
        if |rest| == 1 {
          assert r == [[s[0]] + rest[0]];
        } else {
          assert r[1..] == rest[1..];
          assert JoinWith(rest, [c]) == rest[0] + [c] + JoinWith(rest[1..], [c]);
        }
      }
    }
  }

  lemma {:induction false} SplitAppend(a: string, c: char, b: string)
    ensures Split(a + [c] + b, c) == Split(a, c) + Split(b, c)
    decreases |a|
  {
    if a == [] {
      assert a + [c] + b == [c] + b;
      assert ([c] + b)[1..] == b;
    } else {
      assert (a + [c] + b)[1..] == a[1..] + [c] + b;
      SplitAppend(a[1..], c, b);
    }
  }

  /** Splitting a join of separator-free pieces gives the pieces back. */
  lemma {:induction false} SplitJoin(parts: seq<string>, c: char)
    requires |parts| >= 1
    requires forall i :: 0 <= i < |parts| ==> c !in parts[i]
    ensures Split(JoinWith(parts, [c]), c) == parts
    decreases |parts|
  {
    if |parts| == 1 {
      SplitWithout(parts[0], c);
    } else {
      SplitJoin(parts[1..], c);
      SplitAppend(parts[0], c, JoinWith(parts[1..], [c]));
      SplitWithout(parts[0], c);
      assert [parts[0]] + parts[1..] == parts;
    }
  }

  lemma {:induction false} JoinWithSnoc(parts: seq<string>, sep: string, x: string)
    requires |parts| >= 1
    ensures JoinWith(parts + [x], sep) == JoinWith(parts, sep) + sep + x
    decreases |parts|
  {
    if |parts| > 1 {
      assert (parts + [x])[1..] == parts[1..] + [x];
      JoinWithSnoc(parts[1..], sep, x);
    }
  }

  datatype Cut = Cut(before: string, after: string, found: bool)

  /** `strings.Cut(s, string(c))`: the text around the first `c`. */
  function CutAt(s: string, c: char): Cut
    decreases |s|
  {
    if s == [] then Cut(s, "", false)
    else if s[0] == c then Cut("", s[1..], true)
    else
      var t := CutAt(s[1..], c);
      Cut([s[0]] + t.before, t.after, t.found)
  }

  /** CutAt finds `c` exactly when it occurs, and splits around its first occurrence. */
  lemma {:induction false} CutAtSpec(s: string, c: char)
    ensures CutAt(s, c).found <==> c in s
    ensures CutAt(s, c).found ==>
      s == CutAt(s, c).before + [c] + CutAt(s, c).after && c !in CutAt(s, c).before
    ensures !CutAt(s, c).found ==> CutAt(s, c).before == s && CutAt(s, c).after == ""
    decreases |s|
  {
    if s == [] {
    } else if s[0] == c {
      assert s == "" + [c] + s[1..];
    } else {
      var t := CutAt(s[1..], c);
      CutAtSpec(s[1..], c);
      assert c in s <==> c in s[1..];
      assert CutAt(s, c) == Cut([s[0]] + t.before, t.after, t.found);
      if t.found {
        assert s == [s[0]] + s[1..];
        assert [s[0]] + (t.before + [c] + t.after) == [s[0]] + t.before + [c] + t.after;
      }
    }
  }

  lemma {:induction false} TrimLeftAppend(a: string, b: string)
    requires !AllSpace(a)
    ensures TrimLeft(a + b) == TrimLeft(a) + b
    decreases |a|
  {
    if IsSpace(a[0]) {
      assert (a + b)[1..] == a[1..] + b;
      TrimLeftAppend(a[1..], b);
    }
  }

  lemma {:induction false} TrimRightAppend(a: string, b: string)
    requires !AllSpace(b)
    ensures TrimRight(a + b) == a + TrimRight(b)
    decreases |b|
  {
    if IsSpace(b[|b| - 1]) {
      assert (a + b)[..|a + b| - 1] == a + b[..|b| - 1];
      TrimRightAppend(a, b[..|b| - 1]);
    }
  }

  /** Trimming the left of a join only trims its first piece. */
  lemma JoinTrimLeft(ts: seq<string>, sep: string)
    requires |ts| >= 1 && !AllSpace(ts[0])
    ensures TrimLeft(JoinWith(ts, sep)) == JoinWith(ts[0 := TrimLeft(ts[0])], sep)
  {
    if |ts| > 1 {
      var rest := JoinWith(ts[1..], sep);
      assert ts[0] + sep + rest == ts[0] + (sep + rest);
      TrimLeftAppend(ts[0], sep + rest);
      assert ts[0 := TrimLeft(ts[0])][1..] == ts[1..];
    }
  }

  /** Trimming the right of a join only trims its last piece. */
  lemma JoinTrimRight(ts: seq<string>, sep: string)
    requires |ts| >= 1 && !AllSpace(ts[|ts| - 1])
    ensures TrimRight(JoinWith(ts, sep)) == JoinWith(ts[|ts| - 1 := TrimRight(ts[|ts| - 1])], sep)
  {
    var n := |ts|;
    if n > 1 {
      var init := ts[..n - 1];
      assert ts == init + [ts[n - 1]];
      JoinWithSnoc(init, sep, ts[n - 1]);
      TrimRightAppend(JoinWith(init, sep) + sep, ts[n - 1]);
      assert ts[n - 1 := TrimRight(ts[n - 1])] == init + [TrimRight(ts[n - 1])];
      JoinWithSnoc(init, sep, TrimRight(ts[n - 1]));
    }
  }

  /** Cutting at the first `c` of `w + [c] + rest`, when `w` has no `c`. */
  lemma {:induction false} CutAfterWord(w: string, c: char, rest: string)
    requires c !in w
    ensures CutAt(w + [c] + rest, c) == Cut(w, rest, true)
    decreases |w|
  {
    if w == [] {
      assert ([] + [c] + rest)[1..] == rest;
    } else {
      assert (w + [c] + rest)[1..] == w[1..] + [c] + rest;
      CutAfterWord(w[1..], c, rest);
      assert [w[0]] + w[1..] == w;
    }
  }

  function LowerChar(c: char): char {
    if 'A' <= c <= 'Z' then (c as int + 32) as char else c
  }

  /** `strings.ToLower` on the ASCII range. */
  function ToLower(s: string): (r: string)
    ensures |r| == |s| && forall i :: 0 <= i < |s| ==> r[i] == LowerChar(s[i])
  {
    if s == [] then "" else [LowerChar(s[0])] + ToLower(s[1..])
  }

  /** `strings.ReplaceAll(s, string(c), "")`. */
  function RemoveAll(s: string, c: char): (r: string)
    ensures c !in r
    ensures |r| <= |s|
    ensures |r| == |s| <==> c !in s
    ensures r == s <==> c !in s
    ensures forall x :: x != c ==> multiset(r)[x] == multiset(s)[x]
  {
    if s == [] then ""
    else
      assert s == [s[0]] + s[1..];
      if s[0] == c then RemoveAll(s[1..], c)
      else [s[0]] + RemoveAll(s[1..], c)
  }

  /** Removing a character from two joined texts removes it from each. */
  lemma {:induction false} RemoveAllAppend(a: string, b: string, c: char)
    ensures RemoveAll(a + b, c) == RemoveAll(a, c) + RemoveAll(b, c)
    decreases |a|
  {
    if a == [] {
      assert a + b == b;
    } else {
      assert (a + b)[0] == a[0] && (a + b)[1..] == a[1..] + b;
      RemoveAllAppend(a[1..], b, c);
    }
  }

  /** Go's `<` on strings: lexicographic order of the characters. */
  predicate LexLess(a: string, b: string)
    decreases |a|
  {
    if a == [] then b != []
    else if b == [] then false
    else if a[0] != b[0] then a[0] < b[0]
    else LexLess(a[1..], b[1..])
  }

  lemma {:induction false} LexLessIrreflexive(a: string)
    ensures !LexLess(a, a)
    decreases |a|
  {
    if a != [] { LexLessIrreflexive(a[1..]); }
  }

  lemma {:induction false} LexLessTotal(a: string, b: string)
    ensures a == b || LexLess(a, b) || LexLess(b, a)
    decreases |a|
  {
    if a != [] && b != [] && a[0] == b[0] {
      LexLessTotal(a[1..], b[1..]);
      assert a[1..] == b[1..] ==> a == b by {
        if a[1..] == b[1..] { assert a == [a[0]] + a[1..] && b == [b[0]] + b[1..]; }
      }
    }
  }

  lemma {:induction false} LexLessTransitive(a: string, b: string, c: string)
    requires LexLess(a, b) && LexLess(b, c)
    ensures LexLess(a, c)
    decreases |a|
  {
    if a != [] && a[0] == b[0] && b[0] == c[0] {
      LexLessTransitive(a[1..], b[1..], c[1..]);
    }
  }

  lemma {:induction false} LexLessAsymmetric(a: string, b: string)
    requires LexLess(a, b)
    ensures !LexLess(b, a)
    decreases |a|
  {
    if a != [] && a[0] == b[0] { LexLessAsymmetric(a[1..], b[1..]); }
  }

  /** Not being greater is transitive. */
  lemma LexNotAbove(x: string, y: string, z: string)
    requires !LexLess(y, x) && !LexLess(z, y)
    ensures !LexLess(z, x)
  {
    LexLessTotal(x, y);
    LexLessTotal(y, z);
    if LexLess(x, y) && LexLess(y, z) {
      LexLessTransitive(x, y, z);
      LexLessAsymmetric(x, z);
    } else if x == y && LexLess(y, z) {
      LexLessAsymmetric(x, z);
    } else if LexLess(x, y) && y == z {
      LexLessAsymmetric(x, z);
    } else {
      LexLessIrreflexive(x);
    }
  }

  /** Membership by a linear search, as the source's inner loops do it. */
  method Contains(xs: seq<string>, x: string) returns (found: bool)
    ensures found <==> x in xs
  {
    found := false;
    for k := 0 to |xs|
      invariant found <==> x in xs[..k]
    {
      if xs[k] == x {
        found := true;
        break;
      }
      assert xs[..k + 1] == xs[..k] + [xs[k]];
    }
    assert found || xs[..|xs|] == xs;
  }
}
